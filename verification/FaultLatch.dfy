/** The fault latch over every entry point, and teardown (trigger6_drv.c:1173-1314, 2262-2294, 3198-3342). */
module FaultLatch {
  // ---- Whole runs ------------------------------------------------------------------------

  datatype Transfer = Ordinary | FinalOff

  /** How far disconnect has got; each name is what has been completed. */
  datatype Stage = Live | Unplugging | Unplugged | Cancelled | Drained | Checked | OffDone | Freed

  /**
   * `inside` counts the sections between `drm_dev_enter` and `drm_dev_exit`; `booting` the keepalive works that bypass
   * them. `sent` is every transfer submitted to the USB core.
   */
  datatype State = State(manualOnly: bool, queryOnly: bool, faulted: bool, unplugged: bool, wq: bool, bootGone: bool,
                         inside: nat, booting: nat, stage: Stage, sent: seq<Transfer>)

  datatype Op =
    | Enter | Exit | BootStarts | BootEnds
    | TransferInside(query: bool, ok: bool) | TransferBoot(ok: bool)
    | Trip | Suspend | Resume
    | Disconnect | UnplugDone | CancelDone | QueueDestroyed | FinalPolicy(passes: bool) | FinalAttempt(passes: bool)
    | Shutdown

  predicate Enabled(s: State, op: Op) {
    match op
    case Enter => !s.unplugged
    case Exit => s.inside > 0
    case BootStarts => s.wq && !s.bootGone
    case BootEnds => s.booting > 0
    case TransferInside(_, _) => s.inside > 0
    case TransferBoot(_) => s.booting > 0
    case Trip => true
    case Suspend => true
    case Resume => true
    case Disconnect => s.stage == Live
    case UnplugDone => s.stage == Unplugging && s.inside == 0
    case CancelDone => s.stage == Unplugged && s.booting == 0
    case QueueDestroyed => s.stage == Cancelled
    case FinalPolicy(_) => s.stage == Drained
    case FinalAttempt(_) => s.stage == Checked
    case Shutdown => s.stage == OffDone
  }

  /** A state that lets no ordinary transfer through; `query` is a control read that query-only mode allows. */
  predicate Blocked(s: State, query: bool) { s.manualOnly || s.faulted || (s.queryOnly && !query) }

  /** Check and submit as one step: nothing is submitted under the latch, and a failure sets it. */
  function Submit(s: State, query: bool, ok: bool): State {
    if Blocked(s, query) then s else s.(sent := s.sent + [Ordinary], faulted := !ok)
  }

  /** The conditions of the final-off policy that this state decides; the others are the argument. */
  predicate MayTurnOff(s: State, others: bool) {
    others && !s.manualOnly && !s.queryOnly && !s.faulted && s.unplugged && !s.wq
  }

  function Do(s: State, op: Op): State
    requires Enabled(s, op)
  {
    match op
    case Enter => s.(inside := s.inside + 1)
    case Exit => s.(inside := s.inside - 1)
    case BootStarts => s.(booting := s.booting + 1)
    case BootEnds => s.(booting := s.booting - 1)
    case TransferInside(query, ok) => Submit(s, query, ok)
    case TransferBoot(ok) => Submit(s, false, ok)
    case Trip => s.(faulted := true)
    case Suspend => s.(faulted := true)
    case Resume => s.(faulted := true)
    case Disconnect => s.(stage := Unplugging, unplugged := true)
    case UnplugDone => s.(stage := Unplugged)
    case CancelDone => s.(stage := Cancelled, bootGone := true)
    case QueueDestroyed => s.(stage := Drained, wq := false)
    case FinalPolicy(passes) => s.(stage := if MayTurnOff(s, passes) then Checked else OffDone)
    case FinalAttempt(passes) =>
      s.(stage := OffDone, sent := if MayTurnOff(s, passes) then s.sent + [FinalOff] else s.sent)
    case Shutdown => s.(stage := Freed)
  }

  /** The steps of the final-off function, with or without a trip between the two readings of the policy. */
  function FinalSteps(s: State, first: bool, tripped: bool, second: bool): State
    requires s.stage == Drained
  {
    var checked := Do(s, FinalPolicy(first));
    if checked.stage == OffDone then checked
    else LockedSteps(checked, tripped, second)
  }

  function LockedSteps(s: State, tripped: bool, second: bool): State
    requires s.stage == Checked
  {
    Do(if tripped then Do(s, Trip) else s, FinalAttempt(second))
  }

  /** Once set, the latch stays set and nothing more is submitted. */
  lemma {:induction false} LatchedStep(s: State, op: Op)
    requires Enabled(s, op) && s.faulted
    ensures Do(s, op).faulted && Do(s, op).sent == s.sent
  {
    match op
    case TransferInside(query, _) => assert Blocked(s, query);
    case TransferBoot(_) => assert Blocked(s, false);
    case FinalPolicy(passes) => assert !MayTurnOff(s, passes);
    case FinalAttempt(passes) => assert !MayTurnOff(s, passes);
    case _ =>
  }

  predicate Past(s: Stage) { s != Live && s != Unplugging }

  /** Teardown shuts every way to submit; the final-off request, if any, is the last transfer of all. */
  ghost predicate Torn(s: State) {
    && (s.stage != Live ==> s.unplugged)
    && (Past(s.stage) ==> s.inside == 0)
    && (Past(s.stage) && s.stage != Unplugged ==> s.booting == 0 && s.bootGone)
    && (s.stage == Drained || s.stage == Checked || s.stage == OffDone || s.stage == Freed ==> !s.wq)
    && (forall i | 0 <= i < |s.sent| :: s.sent[i] == FinalOff ==>
          i == |s.sent| - 1 && (s.stage == OffDone || s.stage == Freed))
  }

  lemma {:induction false} TornStep(s: State, op: Op)
    requires Torn(s) && Enabled(s, op)
    ensures Torn(Do(s, op))
  {
  }

  ghost predicate Start(s: State) {
    s.stage == Live && !s.unplugged && s.wq && !s.bootGone && s.inside == 0 && s.booting == 0 && s.sent == []
  }

  ghost predicate Run(states: seq<State>, ops: seq<Op>) {
    && |states| == |ops| + 1 && Start(states[0])
    && forall i | 0 <= i < |ops| :: Enabled(states[i], ops[i]) && states[i + 1] == Do(states[i], ops[i])
  }

  lemma {:induction false} RunTorn(states: seq<State>, ops: seq<Op>, n: nat)
    requires Run(states, ops) && n < |states|
    ensures Torn(states[n])
  {
    if n > 0 {
      var k := n - 1;
      RunTorn(states, ops, k);
      TornStep(states[k], ops[k]);
      assert states[k + 1] == Do(states[k], ops[k]);
    }
  }

  /** In every run, from the moment the latch is set it is never cleared and no entry point submits anything. */
  lemma {:induction false} LatchIsFinal(states: seq<State>, ops: seq<Op>, m: nat, n: nat)
    requires Run(states, ops) && m <= n < |states| && states[m].faulted
    ensures states[n].faulted && states[n].sent == states[m].sent
    decreases n - m
  {
    if m < n {
      var k := n - 1;
      LatchIsFinal(states, ops, m, k);
      LatchedStep(states[k], ops[k]);
      assert states[k + 1] == Do(states[k], ops[k]);
    }
  }

  /** What sets the latch: a failed transfer, a trip of the transport, suspend and resume. */
  predicate Latches(op: Op, sent: bool) {
    op.Trip? || op.Suspend? || op.Resume? || (sent && ((op.TransferInside? && !op.ok) || (op.TransferBoot? && !op.ok)))
  }

  /** In every run, nothing is submitted after a failed transfer, a trip, a suspend or a resume. */
  lemma {:induction false} FailureStops(states: seq<State>, ops: seq<Op>, m: nat, n: nat)
    requires Run(states, ops) && m < |ops| && m + 1 <= n < |states|
    requires Latches(ops[m], states[m + 1].sent != states[m].sent)
    ensures states[n].faulted && states[n].sent == states[m + 1].sent
  {
    LatchIsFinal(states, ops, m + 1, n);
  }

  /** In every run, manual mode submits nothing at all, and query-only mode only reads that its list allows. */
  lemma {:induction false} ModesHold(states: seq<State>, ops: seq<Op>, n: nat)
    requires Run(states, ops) && n < |states|
    ensures states[n].manualOnly == states[0].manualOnly && states[n].queryOnly == states[0].queryOnly
    ensures states[0].manualOnly ==> states[n].sent == []
    ensures states[0].queryOnly && (forall k | 0 <= k < n :: !(ops[k].TransferInside? && ops[k].query)) ==>
      states[n].sent == []
  {
    if n > 0 {
      var k := n - 1;
      ModesHold(states, ops, k);
      ModeStep(states[k], ops[k]);
      assert states[k + 1] == Do(states[k], ops[k]);
    }
  }

  lemma {:induction false} ModeStep(s: State, op: Op)
    requires Enabled(s, op)
    ensures Do(s, op).manualOnly == s.manualOnly && Do(s, op).queryOnly == s.queryOnly
    ensures s.manualOnly || (s.queryOnly && !(op.TransferInside? && op.query)) ==> Do(s, op).sent == s.sent
  {
    match op
    case TransferInside(query, _) =>
    case TransferBoot(_) =>
    case FinalPolicy(_) =>
    case FinalAttempt(_) =>
    case _ =>
  }

  /** The final-off request is sent at most once, unfaulted and drained, and no transfer follows it. */
  lemma {:induction false} FinalOffOnce(states: seq<State>, ops: seq<Op>, m: nat, n: nat)
    requires Run(states, ops) && m < |ops| && m + 1 <= n < |states|
    requires states[m + 1].sent == states[m].sent + [FinalOff]
    ensures !states[m].faulted && states[m].unplugged && !states[m].wq && states[m].inside == 0
      && states[m].booting == 0
    ensures FinalOff !in states[m].sent && states[n].sent == states[m + 1].sent
    decreases n
  {
    RunTorn(states, ops, m);
    RunTorn(states, ops, m + 1);
    SendsFinalOff(states[m], ops[m]);
    if m + 1 < n {
      var k := n - 1;
      FinalOffOnce(states, ops, m, k);
      RunTorn(states, ops, k);
      NothingAfter(states[k], ops[k]);
      assert states[k + 1] == Do(states[k], ops[k]);
    }
  }

  lemma {:induction false} SendsFinalOff(s: State, op: Op)
    requires Torn(s) && Enabled(s, op) && Do(s, op).sent == s.sent + [FinalOff]
    ensures s.stage == Checked && op.FinalAttempt? && MayTurnOff(s, op.passes) && FinalOff !in s.sent
  {
    var t := Do(s, op).sent;
    assert t[|s.sent|] == FinalOff;
  }

  lemma {:induction false} NothingAfter(s: State, op: Op)
    requires Torn(s) && Enabled(s, op) && FinalOff in s.sent
    ensures Do(s, op).sent == s.sent
  {
  }

  // ---- Many transfers in one call -------------------------------------------------------------

  /** What a call that makes any number of transfers, beside threads that may set the latch, can do. */
  ghost predicate Traffic(s: State, s': State) {
    && s' == s.(faulted := s'.faulted, sent := s'.sent)
    && s.sent <= s'.sent && (forall i | |s.sent| <= i < |s'.sent| :: s'.sent[i] == Ordinary)
    && (s.faulted ==> s'.faulted) && (Blocked(s, false) ==> s'.sent == s.sent)
  }

  lemma {:induction false} TrafficJoins(s: State, t: State, u: State)
    requires Traffic(s, t) && Traffic(t, u)
    ensures Traffic(s, u)
  {
  }

  ghost predicate Chain(s: State, ops: seq<Op>, s': State)
    decreases |ops|
  {
    if ops == [] then s' == s else Enabled(s, ops[0]) && Chain(Do(s, ops[0]), ops[1..], s')
  }

  /** The steps of such a call: so many transfers, then perhaps a trip. */
  function TrafficOps(n: nat, tripped: bool): seq<Op> {
    if n > 0 then [TransferInside(false, true)] + TrafficOps(n - 1, tripped) else if tripped then [Trip] else []
  }

  /** Inside a section, it is a chain of steps of the machine. */
  lemma {:induction false} TrafficIsSteps(s: State, s': State)
    requires Traffic(s, s') && s.inside > 0
    ensures Chain(s, TrafficOps(|s'.sent| - |s.sent|, s'.faulted), s')
    decreases |s'.sent| - |s.sent|
  {
    var n := |s'.sent| - |s.sent|;
    if n > 0 {
      var t := Do(s, TransferInside(false, true));
      assert s'.sent[|s.sent|] == Ordinary;
      assert t.sent <= s'.sent;
      TrafficIsSteps(t, s');
      assert TrafficOps(n, s'.faulted)[1..] == TrafficOps(n - 1, s'.faulted);
    } else if s'.faulted {
      assert [Trip][1..] == [];
    }
  }
}
