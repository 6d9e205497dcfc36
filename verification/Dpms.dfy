/**
 * Raw head 0 under every interleaving of the idle timer, the frame worker and CRTC enable/disable
 * (trigger6_drv.c:647-656, 1614-1617, 1780-1804, 2369-2381, 2450-2460, 2530-2614).
 */
module Dpms {
  import opened Wrappers

  const IDLE: nat := 1000

  /** The idle timer's callback: entered, past its first checks, or about to queue the work it has asked for. */
  datatype Timer = Resting | Called | Passed | Asked

  /** What the worker is about to send: a staged frame, whole or only its dirty rows, or a replay of the last one. */
  datatype Job = Frame(id: nat, full: bool) | Replay

  /** The worker, step by step; it holds `io_lock` from `Locked` to `Recorded`. */
  datatype Worker =
    | Idle | Started | Popped(id: nat) | Ready(job: Job)
    | Locked(job: Job) | Cleared(job: Job) | Delivered(job: Job) | Recorded | Done

  /** CRTC state: off, enabling, on, or in the middle of disable, named after what comes next. */
  datatype Crtc =
    | Off | Enabling | Lighting | On
    | DelTimer | CancelWork | WaitWork | DelTimerAgain | DropDue | DropValid | MonitorOff

  /** One attempt to send a frame. */
  datatype Emit = Emit(at: nat, id: nat, full: bool, refresh: bool, period: nat)

  datatype State = State(
    now: nat, crtc: Crtc, timer: Timer, worker: Worker,
    scanout: bool, valid: bool, due: bool, faulted: bool,
    armed: Option<nat>, queued: bool,
    pending: Option<nat>, next: nat,
    last: nat, sentAt: nat, period: nat, log: seq<Emit>)

  const BOOT: State :=
    State(0, Off, Resting, Idle, false, false, false, false, None, false, None, 0, 0, 0, 0, [])

  /** `queue_work`; it is refused while the work is being cancelled. */
  function Queue(s: State): State {
    if s.crtc == WaitWork then s else s.(queued := true)
  }

  predicate HoldsIoLock(w: Worker) { w.Locked? || w.Cleared? || w.Delivered? || w.Recorded? }

  // Reads of flags that other threads may change meanwhile are left free: such a step may go either way.

  // ---- The timer callback ---------------------------------------------------------------

  datatype TimerOp = Fires | Checks | Rearms | Quits | Asks | Queues

  predicate TimerCan(s: State, op: TimerOp) {
    match op
    case Fires => s.armed.Some? && s.armed.value <= s.now && s.timer == Resting
    case Checks => s.timer == Called
    case Rearms => s.timer == Passed
    case Quits => s.timer == Passed
    case Asks => s.timer == Passed
    case Queues => s.timer == Asked
  }

  function TimerDoes(s: State, op: TimerOp): State
    requires TimerCan(s, op)
  {
    match op
    case Fires => s.(armed := None, timer := Called)
    case Checks => s.(timer := if s.scanout && !s.faulted then Passed else Resting)
    case Rearms => s.(armed := Some(s.sentAt + IDLE), timer := Resting)
    case Quits => s.(timer := Resting)
    case Asks => s.(due := true, timer := Asked)
    case Queues => Queue(s.(timer := Resting))
  }

  // ---- The worker -----------------------------------------------------------------------

  /** `Fails` gives up before anything is submitted, under the latch or not; the trip that may follow is a `Fault`. */
  datatype WorkOp =
    | Starts | GivesUp | Pops | TakesDue | Drops | Sizes(overflow: bool) | Locks
    | Clears | Skips | Fails | Sends(ok: bool) | Records | Arms(eligible: bool) | Ends

  predicate WorkCan(s: State, op: WorkOp) {
    match op
    case Starts => s.queued && s.worker == Idle
    case GivesUp => s.worker == Started
    case Pops => s.worker == Started && s.pending.Some?
    case TakesDue => s.worker == Started && s.pending.None? && s.due
    case Drops => s.worker.Popped? || s.worker.Ready?
    case Sizes(_) => s.worker.Popped?
    case Locks => s.worker.Ready?
    case Clears => s.worker.Locked? && (s.worker.job.Replay? ==> s.valid && s.scanout && s.sentAt + IDLE <= s.now)
    case Skips => s.worker.Locked? && (s.worker.job.Frame? ==> !s.worker.job.full)
    case Fails => s.worker.Locked? || s.worker.Cleared?
    case Sends(_) => s.worker.Cleared? && !s.faulted
    case Records => s.worker.Delivered?
    case Arms(_) => s.worker == Recorded
    case Ends => s.worker == Done
  }

  /** The entry a send adds to the log. */
  function Sending(s: State): Emit
    requires s.worker.Cleared?
  {
    match s.worker.job
    case Replay => Emit(s.now, s.last, true, true, s.period)
    case Frame(id, full) => Emit(s.now, id, full, false, s.period)
  }

  function WorkDoes(s: State, op: WorkOp): State
    requires WorkCan(s, op)
  {
    match op
    case Starts => s.(queued := false, worker := Started)
    case GivesUp => s.(worker := Idle)
    case Pops => s.(worker := Popped(s.pending.value), pending := None)
    case TakesDue => s.(worker := Ready(Replay), due := false)
    case Drops => s.(worker := Idle)
    case Sizes(overflow) => s.(worker := Ready(Frame(s.worker.id, overflow || !s.valid)))
    case Locks => s.(worker := Locked(s.worker.job))
    case Clears => s.(worker := Cleared(s.worker.job))
    case Skips => s.(worker := Done)
    case Fails => s.(worker := Idle)
    case Sends(ok) =>
      var t := s.(log := s.log + [Sending(s)]);
      if ok then t.(worker := Delivered(s.worker.job)) else t.(worker := Idle, faulted := true)
    case Records =>
      var t := s.(sentAt := s.now, worker := Recorded);
      if s.worker.job.Frame? then t.(last := s.worker.job.id, valid := true) else t
    case Arms(eligible) => s.(worker := Done, armed := if eligible then Some(s.now + IDLE) else s.armed)
    case Ends =>
      var t := s.(worker := Idle);
      if s.pending.Some? || s.due then Queue(t) else t
  }

  // ---- Enable and disable -----------------------------------------------------------------

  datatype CrtcOp =
    | Disable | TimerGone | WorkCancelled | WorkGone | TimerGoneAgain | DueDropped | ValidDropped | MonitorIsOff
    | LeftAlone
    | Enable | BootTimerGone | MonitorIsOn(ok: bool) | StaysDark

  /**
   * The `_sync` calls wait: `TimerGone` needs the callback to be over, `WorkGone` the worker to be idle. Without a
   * monitor or a device both paths return early: `LeftAlone`, and `StaysDark`, after which the CRTC counts as on all
   * the same.
   */
  predicate CrtcCan(s: State, op: CrtcOp) {
    match op
    case Disable => s.crtc == On
    case TimerGone => s.crtc == DelTimer && s.timer == Resting
    case WorkCancelled => s.crtc == CancelWork
    case WorkGone => s.crtc == WaitWork && s.worker == Idle
    case TimerGoneAgain => s.crtc == DelTimerAgain && s.timer == Resting
    case DueDropped => s.crtc == DropDue
    case ValidDropped => s.crtc == DropValid
    case MonitorIsOff => s.crtc == MonitorOff && !HoldsIoLock(s.worker)
    case LeftAlone => s.crtc == MonitorOff
    case Enable => s.crtc == Off
    case BootTimerGone => s.crtc == Enabling && s.timer == Resting
    case MonitorIsOn(_) => s.crtc == Lighting && !HoldsIoLock(s.worker)
    case StaysDark => s.crtc == Enabling || s.crtc == Lighting
  }

  function CrtcDoes(s: State, op: CrtcOp): State
    requires CrtcCan(s, op)
  {
    match op
    case Disable => s.(scanout := false, crtc := DelTimer)
    case TimerGone => s.(armed := None, crtc := CancelWork)
    case WorkCancelled => s.(queued := false, crtc := WaitWork)
    case WorkGone => s.(crtc := DelTimerAgain)
    case TimerGoneAgain => s.(armed := None, crtc := DropDue)
    case DueDropped => s.(due := false, crtc := DropValid)
    case ValidDropped => s.(valid := false, crtc := MonitorOff)
    case MonitorIsOff => s.(crtc := Off)
    case LeftAlone => s.(crtc := Off)
    case Enable => s.(crtc := Enabling)
    case BootTimerGone => s.(armed := None, crtc := Lighting)
    case MonitorIsOn(ok) =>
      s.(crtc := On, period := s.period + 1, scanout := ok, faulted := s.faulted || !ok,
         armed := if ok && s.valid then Some(s.now + IDLE) else s.armed)
    case StaysDark => s.(crtc := On, period := s.period + 1)
  }

  // ---- All of them --------------------------------------------------------------------------

  datatype Op =
    | Tick(ms: nat) | Fault | PlaneUpdate | OfTimer(timer: TimerOp) | OfWork(work: WorkOp) | OfCrtc(crtc: CrtcOp)

  /** Planes are committed only on an active CRTC. */
  predicate Enabled(s: State, op: Op) {
    match op
    case Tick(_) => true
    case Fault => true
    case PlaneUpdate => s.crtc == On
    case OfTimer(t) => TimerCan(s, t)
    case OfWork(w) => WorkCan(s, w)
    case OfCrtc(c) => CrtcCan(s, c)
  }

  function Do(s: State, op: Op): State
    requires Enabled(s, op)
  {
    match op
    case Tick(ms) => s.(now := s.now + ms)
    case Fault => s.(faulted := true)
    case PlaneUpdate => Queue(s.(pending := Some(s.next), next := s.next + 1))
    case OfTimer(t) => TimerDoes(s, t)
    case OfWork(w) => WorkDoes(s, w)
    case OfCrtc(c) => CrtcDoes(s, c)
  }

  // ---- Disable is quiet ----------------------------------------------------------------

  predicate NotYet(c: Crtc) { c == Off || c == Enabling || c == Lighting }

  /** How far disable has got. */
  predicate PastTimer(c: Crtc) { c != On && c != DelTimer }

  predicate PastWork(c: Crtc) { PastTimer(c) && c != CancelWork && c != WaitWork }

  predicate PastTimers(c: Crtc) { PastWork(c) && c != DelTimerAgain }

  /** What each step of disable has settled, and keeps settled until enable completes. */
  ghost predicate Quieted(s: State) {
    && (s.crtc != On ==> !s.scanout)
    && (PastTimer(s.crtc) ==> s.timer == Resting || s.timer == Called)
    && (s.crtc == WaitWork || PastWork(s.crtc) ==> !s.queued)
    && (PastWork(s.crtc) ==> s.worker == Idle)
    && (PastTimers(s.crtc) ==> s.timer == Resting && s.armed == None)
    && (s.crtc == DropValid || s.crtc == MonitorOff || NotYet(s.crtc) ==> !s.due)
    && (s.crtc == MonitorOff || NotYet(s.crtc) ==> !s.valid)
  }

  lemma {:induction false} QuietedTimer(s: State, op: TimerOp)
    requires Quieted(s) && TimerCan(s, op)
    ensures Quieted(TimerDoes(s, op))
  {
  }

  lemma {:induction false} QuietedWork(s: State, op: WorkOp)
    requires Quieted(s) && WorkCan(s, op)
    ensures Quieted(WorkDoes(s, op))
  {
  }

  lemma {:induction false} QuietedCrtc(s: State, op: CrtcOp)
    requires Quieted(s) && CrtcCan(s, op)
    ensures Quieted(CrtcDoes(s, op))
  {
  }

  /** The timer and the worker cannot undo what disable has settled. */
  lemma {:induction false} QuietedStep(s: State, op: Op)
    requires Quieted(s) && Enabled(s, op)
    ensures Quieted(Do(s, op))
  {
    match op
    case OfTimer(t) => QuietedTimer(s, t);
    case OfWork(w) => QuietedWork(s, w);
    case OfCrtc(c) => QuietedCrtc(s, c);
    case _ =>
  }

  // ---- What refreshes replay ------------------------------------------------------------

  /** The most recent attempt to send a staged frame in a period. */
  function LastFrame(log: seq<Emit>, period: nat): Option<Emit>
  {
    if log == [] then None
    else
      var e := log[|log| - 1];
      if !e.refresh && e.period == period then Some(e) else LastFrame(log[..|log| - 1], period)
  }

  /** The log entries are right, each in terms of those before it. */
  ghost predicate GoodEntry(before: seq<Emit>, e: Emit) {
    var f := LastFrame(before, e.period);
    if e.refresh then
      && e.full && f.Some? && f.value.id == e.id
      && before != [] && before[|before| - 1].at + 1000 <= e.at && f.value.at + 1000 <= e.at
    else f.None? ==> e.full
  }

  ghost predicate GoodLog(log: seq<Emit>) {
    forall i | 0 <= i < |log| :: GoodEntry(log[..i], log[i])
  }

  /** No entry is later than `at`, or of a later period. */
  ghost predicate Before(log: seq<Emit>, at: nat, period: nat) {
    forall i | 0 <= i < |log| :: log[i].at <= at && log[i].period <= period
  }

  /** What the log's last frame of this period, `f`, tells of the reference and of the worker. */
  ghost predicate Agrees(s: State, f: Option<Emit>) {
    && (s.valid ==> f.Some?)
    && (s.valid && !s.faulted && !Fresher(s.worker) ==> f.Some? && f.value.id == s.last)
    && (Fresher(s.worker) ==> f.Some? && f.value.id == s.worker.job.id)
    && (Partial(s.worker) ==> f.Some?)
    && (Replaying(s.worker) ==> s.valid && s.sentAt + IDLE <= s.now)
    && (s.worker.Delivered? && s.worker.job.Replay? ==> s.valid)
  }

  /** The reference frame is the last frame sent in this period; `sentAt` is not before any send. */
  ghost predicate Remembers(s: State) {
    && Before(s.log, s.now, s.period) && Agrees(s, LastFrame(s.log, s.period))
    && (s.valid && !s.worker.Delivered? && !s.faulted ==> Before(s.log, s.sentAt, s.period))
  }

  predicate Fresher(w: Worker) { w.Delivered? && w.job.Frame? }

  predicate Partial(w: Worker) { (w.Ready? || w.Locked? || w.Cleared?) && w.job.Frame? && !w.job.full }

  predicate Replaying(w: Worker) { w.Cleared? && w.job.Replay? }

  ghost predicate Inv(s: State) { Quieted(s) && Remembers(s) && GoodLog(s.log) }

  lemma {:induction false} LastFrameAdd(log: seq<Emit>, e: Emit, period: nat)
    ensures LastFrame(log + [e], period) == if !e.refresh && e.period == period then Some(e) else LastFrame(log, period)
  {
    assert (log + [e])[..|log|] == log;
  }

  /** What `LastFrame` finds is an entry of the log, of that period. */
  lemma {:induction false} LastFrameIn(log: seq<Emit>, period: nat)
    ensures var f := LastFrame(log, period);
      f.Some? ==> f.value in log && f.value.period == period && !f.value.refresh
  {
    if log != [] { LastFrameIn(log[..|log| - 1], period); }
  }

  lemma {:induction false} GoodAdd(log: seq<Emit>, e: Emit)
    requires GoodLog(log) && GoodEntry(log, e)
    ensures GoodLog(log + [e])
  {
    var all := log + [e];
    forall i | 0 <= i < |all| ensures GoodEntry(all[..i], all[i]) {
      if i < |log| {
        assert all[..i] == log[..i];
        assert GoodEntry(log[..i], log[i]);
      } else {
        assert all[..i] == log;
      }
    }
  }

  /** Every send is a right next entry of the log. */
  lemma {:induction false} SendIsGood(s: State)
    requires Remembers(s) && s.worker.Cleared? && !s.faulted
    ensures GoodEntry(s.log, Sending(s))
  {
    LastFrameIn(s.log, s.period);
    var f := LastFrame(s.log, s.period);
    if s.worker.job.Replay? {
      var i :| 0 <= i < |s.log| && s.log[i] == f.value;
      assert s.log[|s.log| - 1].at <= s.sentAt;
    }
  }

  lemma {:induction false} RemembersSend(s: State, ok: bool)
    requires Remembers(s) && WorkCan(s, Sends(ok))
    ensures Remembers(WorkDoes(s, Sends(ok)))
  {
    LastFrameAdd(s.log, Sending(s), s.period);
  }

  lemma {:induction false} RemembersTimer(s: State, op: TimerOp)
    requires Remembers(s) && TimerCan(s, op)
    ensures Remembers(TimerDoes(s, op)) && TimerDoes(s, op).log == s.log
  {
  }

  lemma {:induction false} RemembersWork(s: State, op: WorkOp)
    requires Remembers(s) && WorkCan(s, op) && !op.Sends?
    ensures Remembers(WorkDoes(s, op)) && WorkDoes(s, op).log == s.log
  {
    var s' := WorkDoes(s, op);
    AgreesWork(s, op, LastFrame(s.log, s.period));
    assert s'.log == s.log && s'.now == s.now && s'.period == s.period && s'.faulted == s.faulted;
    if op.Records? {
      assert s'.sentAt == s.now;
    } else {
      assert s'.sentAt == s.sentAt && s'.valid == s.valid && s'.worker.Delivered? == s.worker.Delivered?;
    }
  }

  lemma {:induction false} AgreesWork(s: State, op: WorkOp, f: Option<Emit>)
    requires Agrees(s, f) && WorkCan(s, op) && !op.Sends?
    ensures Agrees(WorkDoes(s, op), f)
  {
  }

  /** A new period has no frame yet, so nothing may be remembered when it starts. */
  lemma {:induction false} RemembersCrtc(s: State, op: CrtcOp)
    requires Quieted(s) && Remembers(s) && CrtcCan(s, op)
    ensures Remembers(CrtcDoes(s, op)) && CrtcDoes(s, op).log == s.log
  {
    LastFrameIn(s.log, s.period + 1);
  }

  lemma {:induction false} InvStep(s: State, op: Op)
    requires Inv(s) && Enabled(s, op)
    ensures Inv(Do(s, op))
  {
    QuietedStep(s, op);
    match op
    case OfTimer(t) => RemembersTimer(s, t);
    case OfWork(w) =>
      if w.Sends? {
        SendIsGood(s);
        GoodAdd(s.log, Sending(s));
        RemembersSend(s, w.ok);
      } else {
        RemembersWork(s, w);
      }
    case OfCrtc(c) => RemembersCrtc(s, c);
    case _ =>
  }

  // ---- Over whole runs -------------------------------------------------------------------

  ghost predicate Run(states: seq<State>, ops: seq<Op>) {
    && |states| == |ops| + 1 && states[0] == BOOT
    && forall i | 0 <= i < |ops| :: Enabled(states[i], ops[i]) && states[i + 1] == Do(states[i], ops[i])
  }

  lemma {:induction false} RunInv(states: seq<State>, ops: seq<Op>, n: nat)
    requires Run(states, ops) && n < |states|
    ensures Inv(states[n])
  {
    if n > 0 {
      RunInv(states, ops, n - 1);
      InvStep(states[n - 1], ops[n - 1]);
      assert states[n - 1 + 1] == Do(states[n - 1], ops[n - 1]);
    }
  }

  /**
   * In every run, each refresh replays the last frame sent in its enable period, at least one idle interval after that
   * frame and after any other send; and the first frame of each period is a full one.
   */
  lemma {:induction false} RefreshesReplay(states: seq<State>, ops: seq<Op>, n: nat)
    requires Run(states, ops) && n < |states|
    ensures GoodLog(states[n].log)
  {
    RunInv(states, ops, n);
  }

  /** While the CRTC is off, no step sends anything, whatever was in flight when disable began. */
  lemma {:induction false} OffIsSilent(states: seq<State>, ops: seq<Op>, m: nat, n: nat)
    requires Run(states, ops) && m <= n < |states|
    requires forall i | m <= i <= n :: NotYet(states[i].crtc)
    ensures states[n].log == states[m].log
    decreases n - m
  {
    if m < n {
      var k := n - 1;
      OffIsSilent(states, ops, m, k);
      RunInv(states, ops, k);
      var s, s' := states[k], states[k + 1];
      SilentStep(s, ops[k]);
      assert s'.log == s.log;
    }
  }

  lemma {:induction false} SilentStep(s: State, op: Op)
    requires Quieted(s) && NotYet(s.crtc) && Enabled(s, op)
    ensures Do(s, op).log == s.log
  {
  }
}
