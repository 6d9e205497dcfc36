/**
 * The controller's ledger and its pure policy: `fresh_state`, `decide`, and the validation of `StateStore.read`
 * (controller.py:56-125, 489-515).
 */
module Policy {
  import opened Wrappers

  const STABLE_SECONDS: real := 15.0
  const COOLDOWN_SECONDS: real := 120.0
  const RAPID_LOSS_SECONDS: real := 60.0
  const HOUR: real := 3600.0
  const HOURLY_ATTEMPTS: nat := 3
  const BOOT_ATTEMPTS: nat := 6

  /** Texts in the ledger: the controller's own, each under a name, and those it takes over from an error. */
  datatype Message =
    | NotStarted | UnfinishedMutation | StoppedOrInhibited | InhibitionUnknown | RapidLoss | DeviceAbsent
    | ForeignBinding
    | NotAdopted | TransportFault | DrmMissing | Active | CrtcOff | UnapprovedModule | BindingLost | RapidReenumeration
    | WaitingForPanel | WaitingForStable | BudgetExhausted | CoolingDown | Ready | Started
    | Said(text: string) | CleanupFailed(first: Message, second: string) | CommandFailed(text: string)

  /** As a Python condition: only an error without a text is false. */
  predicate Spoken(m: Message) { m.Said? ==> m.text != "" }

  predicate Truthy(m: Option<Message>) { m.Some? && Spoken(m.value) }

  datatype Act = DoStart | DoStop | SleepStop

  datatype Inflight = Inflight(action: Act, generation: Option<string>, error: Option<string>,
                               cleanupError: Option<string>)

  /** The persisted state of the controller. */
  datatype Ledger = Ledger(
    bootId: string, desired: bool, paused: bool, circuit: Option<Message>,
    attempts: seq<real>, candidate: Option<string>, candidateSince: real,
    managed: Option<string>, lastAttempt: Option<real>, inflight: Option<Inflight>, reason: Message)

  function FreshState(bootId: string): Ledger {
    Ledger(bootId, false, false, None, [], None, 0.0, None, None, None, NotStarted)
  }

  datatype Driver = Unbound | Trigger6 | Foreign

  datatype Device = Device(generation: string, driver: Driver)

  /** What a snapshot of the host reports; `inhibited` is None when the marker cannot be read. */
  datatype Observation = Observation(
    device: Option<Device>, modulePresent: bool, ownedModule: bool, panelReady: bool, hyprlandPresent: bool,
    inhibited: Option<bool>, error: Option<Message>, pending: Option<Message>,
    fault: bool, drmPresent: bool, scanoutActive: bool)

  datatype Action = Wait | Start | Stop

  function Answer(s: Ledger, reason: Message): (Ledger, Action) { (s.(reason := reason), Wait) }

  function Trip(s: Ledger, reason: Message, action: Action): (Ledger, Action) {
    (s.(reason := reason, circuit := Some(reason)), action)
  }

  /** How many attempts are less than an hour old. */
  function Recent(attempts: seq<real>, now: real): nat {
    if attempts == [] then 0
    else Recent(attempts[..|attempts| - 1], now) + if now - attempts[|attempts| - 1] < HOUR then 1 else 0
  }

  predicate Rapid(s: Ledger, now: real) {
    s.managed.Some? && s.lastAttempt.Some? && now - s.lastAttempt.value < RAPID_LOSS_SECONDS
  }

  predicate Spent(s: Ledger, now: real) {
    |s.attempts| >= BOOT_ATTEMPTS || Recent(s.attempts, now) >= HOURLY_ATTEMPTS
  }

  /** `decide`. */
  function Decide(s: Ledger, o: Observation, now: real): (Ledger, Action) {
    if s.inflight.Some? then
      Trip(s, if Truthy(s.circuit) then s.circuit.value else UnfinishedMutation, Wait)
    else if Truthy(s.circuit) then Answer(s, s.circuit.value)
    else if !s.desired || s.paused || (o.inhibited.Some? && o.inhibited.value) then Answer(s, StoppedOrInhibited)
    else if o.inhibited.None? then Trip(s, InhibitionUnknown, Wait)
    else if Truthy(o.error) then Trip(s, o.error.value, Wait)
    else match o.device
      case None => DecideAbsent(s.(candidate := None), o, now)
      case Some(d) =>
        var t := if s.candidate != Some(d.generation) then s.(candidate := Some(d.generation), candidateSince := now)
          else s;
        if d.driver != Unbound then DecideBound(t, o, d) else DecideUnbound(t, o, d.generation, now)
  }

  function DecideAbsent(s: Ledger, o: Observation, now: real): (Ledger, Action) {
    if Rapid(s, now) then Trip(s, RapidLoss, Wait)
    else Answer(s, if o.pending.Some? then o.pending.value else DeviceAbsent)
  }

  function DecideBound(s: Ledger, o: Observation, d: Device): (Ledger, Action) {
    if d.driver != Trigger6 || !o.ownedModule then Trip(s, ForeignBinding, Wait)
    else if s.managed != Some(d.generation) then Trip(s, NotAdopted, Wait)
    else if o.fault then Trip(s, TransportFault, Stop)
    else if !o.drmPresent then Trip(s, DrmMissing, Stop)
    else Answer(s, if o.scanoutActive then Active else CrtcOff)
  }

  function DecideUnbound(s: Ledger, o: Observation, generation: string, now: real): (Ledger, Action) {
    if o.modulePresent && !o.ownedModule then Trip(s, UnapprovedModule, Wait)
    else if s.managed == Some(generation) then Trip(s, BindingLost, Wait)
    else if Rapid(s, now) then Trip(s, RapidReenumeration, Wait)
    else if !o.panelReady || !o.hyprlandPresent then Answer(s, WaitingForPanel)
    else if now - s.candidateSince < STABLE_SECONDS then Answer(s, WaitingForStable)
    else if Spent(s, now) then Trip(s, BudgetExhausted, Wait)
    else if s.lastAttempt.Some? && now - s.lastAttempt.value < COOLDOWN_SECONDS then Answer(s, CoolingDown)
    else (s.(reason := Ready), Start)
  }

  // ---- What the policy guarantees ------------------------------------------------------

  /** Nothing stands in the way of an action. */
  predicate Armed(s: Ledger, o: Observation) {
    && s.inflight.None? && !Truthy(s.circuit) && s.desired && !s.paused
    && o.inhibited.Some? && !o.inhibited.value && !Truthy(o.error)
  }

  /** A start is decided exactly for an unmanaged, unbound, stable generation inside every budget. */
  lemma {:induction false} StartExactly(s: Ledger, o: Observation, now: real)
    ensures Decide(s, o, now).1 == Start <==>
      && Armed(s, o) && o.device.Some? && o.device.value.driver == Unbound
      && (o.modulePresent ==> o.ownedModule)
      && s.managed != Some(o.device.value.generation)
      && !Rapid(s, now) && o.panelReady && o.hyprlandPresent
      && s.candidate == Some(o.device.value.generation) && now - s.candidateSince >= STABLE_SECONDS
      && !Spent(s, now)
      && (s.lastAttempt.Some? ==> now - s.lastAttempt.value >= COOLDOWN_SECONDS)
  {
  }

  /**
   * A stop is decided exactly for the managed, bound generation with a fault or no DRM device, and trips the circuit.
   */
  lemma {:induction false} StopExactly(s: Ledger, o: Observation, now: real)
    ensures Decide(s, o, now).1 == Stop <==>
      && Armed(s, o) && o.device.Some? && o.device.value.driver == Trigger6 && o.ownedModule
      && s.managed == Some(o.device.value.generation) && (o.fault || !o.drmPresent)
    ensures Decide(s, o, now).1 == Stop ==> Truthy(Decide(s, o, now).0.circuit)
  {
  }

  /** Less than a minute since an attempt whose module is still recorded as managed. */
  predicate JustStarted(s: Ledger, now: real) {
    s.managed.Some? && s.lastAttempt.Some? && now - s.lastAttempt.value < 60.0
  }

  /** Six attempts in all, or three in the last hour. */
  predicate Exhausted(s: Ledger, now: real) {
    |s.attempts| >= 6 || |RecentPlaces(s.attempts, now)| >= 3
  }

  function RecentPlaces(attempts: seq<real>, now: real): (p: set<nat>) {
    set i: nat | i < |attempts| && now - attempts[i] < 3600.0
  }

  lemma {:induction false} RecentCounts(attempts: seq<real>, now: real)
    ensures Recent(attempts, now) == |RecentPlaces(attempts, now)|
  {
    if attempts != [] {
      var n := |attempts| - 1;
      var init := attempts[..n];
      RecentCounts(init, now);
      var last: set<nat> := if now - attempts[n] < 3600.0 then {n} else {};
      forall i: nat ensures i in RecentPlaces(attempts, now) <==> i in RecentPlaces(init, now) || i in last {
        if i < n { assert attempts[i] == init[i]; }
      }
      assert RecentPlaces(attempts, now) == RecentPlaces(init, now) + last;
      assert |RecentPlaces(init, now) + last| == |RecentPlaces(init, now)| + |last|;
    } else {
      assert RecentPlaces(attempts, now) == {};
    }
  }

  /** What a device that is bound, or one that is not, must not look like. */
  predicate WrongBinding(s: Ledger, o: Observation, d: Device) {
    d.driver == Foreign || !o.ownedModule || s.managed != Some(d.generation) || o.fault || !o.drmPresent
  }

  predicate WrongArrival(s: Ledger, o: Observation, d: Device, now: real) {
    || (o.modulePresent && !o.ownedModule) || s.managed == Some(d.generation) || JustStarted(s, now)
    || (&& o.panelReady && o.hyprlandPresent && s.candidate == Some(d.generation) && now - s.candidateSince >= 15.0
        && Exhausted(s, now))
  }

  /**
   * Everything that trips the circuit: an unfinished mutation; and, of a wanted module that is neither paused nor
   * inhibited, an unreadable marker, an error, a loss or an arrival too soon after an attempt, a binding that is
   * foreign, unapproved, unadopted, faulty or without its display, an unapproved module, a lost binding, and a spent
   * budget.
   */
  predicate Alarming(s: Ledger, o: Observation, now: real) {
    || s.inflight.Some?
    || (&& s.desired && !s.paused && o.inhibited != Some(true)
        && (|| o.inhibited.None? || Truthy(o.error)
            || (o.device.None? && JustStarted(s, now))
            || (o.device.Some? && o.device.value.driver != Unbound && WrongBinding(s, o, o.device.value))
            || (o.device.Some? && o.device.value.driver == Unbound && WrongArrival(s, o, o.device.value, now))))
  }

  /** The circuit trips exactly then, with the reason for its text; otherwise it is left as it was. */
  lemma {:induction false} TripsExactly(s: Ledger, o: Observation, now: real)
    requires !Truthy(s.circuit)
    ensures var d := Decide(s, o, now).0;
      && (Truthy(d.circuit) <==> Alarming(s, o, now))
      && d.circuit == if Alarming(s, o, now) then Some(d.reason) else s.circuit
  {
    RecentCounts(s.attempts, now);
    if s.inflight.None? && o.device.Some? && Armed(s, o) {
      var d := o.device.value;
      var t := if s.candidate != Some(d.generation) then s.(candidate := Some(d.generation), candidateSince := now)
        else s;
      if d.driver == Unbound { ArrivalTrips(s, t, o, d, now); } else { BindingTrips(t, o, d); }
    }
  }

  lemma {:induction false} BindingTrips(t: Ledger, o: Observation, d: Device)
    requires !Truthy(t.circuit) && d.driver != Unbound
    ensures var r := DecideBound(t, o, d).0;
      && (Truthy(r.circuit) <==> WrongBinding(t, o, d))
      && r.circuit == if WrongBinding(t, o, d) then Some(r.reason) else t.circuit
  {
  }

  lemma {:induction false} ArrivalTrips(s: Ledger, t: Ledger, o: Observation, d: Device, now: real)
    requires !Truthy(s.circuit) && Recent(s.attempts, now) == |RecentPlaces(s.attempts, now)|
    requires t == if s.candidate != Some(d.generation) then s.(candidate := Some(d.generation), candidateSince := now)
                  else s
    ensures var r := DecideUnbound(t, o, d.generation, now).0;
      && (Truthy(r.circuit) <==> WrongArrival(s, o, d, now))
      && r.circuit == if WrongArrival(s, o, d, now) then Some(r.reason) else s.circuit
  {
  }

  /** A tripped circuit keeps its text. */
  lemma {:induction false} TrippedStays(s: Ledger, o: Observation, now: real)
    requires Truthy(s.circuit)
    ensures Decide(s, o, now).0.circuit == s.circuit && Decide(s, o, now).0.reason == s.circuit.value
    ensures Decide(s, o, now).1 == Wait
  {
  }

  /** The candidate is the generation in sight, since it came into sight; out of sight, there is none. */
  lemma {:induction false} CandidateFollows(s: Ledger, o: Observation, now: real)
    ensures var d := Decide(s, o, now).0;
      && (!Armed(s, o) ==> d.candidate == s.candidate && d.candidateSince == s.candidateSince)
      && (Armed(s, o) && o.device.None? ==> d.candidate == None)
      && (Armed(s, o) && o.device.Some? ==>
            && d.candidate == Some(o.device.value.generation)
            && d.candidateSince == if s.candidate == d.candidate then s.candidateSince else now)
  {
  }

  lemma {:induction false} TripKeeps(s: Ledger, m: Message, a: Action, now: real)
    requires Spoken(m)
    ensures Keeps(s, Trip(s, m, a).0, now)
  {
  }

  lemma {:induction false} BoundKeeps(s: Ledger, o: Observation, d: Device, now: real)
    ensures Keeps(s, DecideBound(s, o, d).0, now)
  {
  }

  lemma {:induction false} UnboundKeeps(s: Ledger, o: Observation, generation: string, now: real)
    ensures Keeps(s, DecideUnbound(s, o, generation, now).0, now)
  {
  }

  lemma {:induction false} AbsentKeeps(s: Ledger, o: Observation, now: real)
    ensures Keeps(s, DecideAbsent(s, o, now).0, now)
  {
  }

  lemma {:induction false} KeepsCandidate(s: Ledger, c: Option<string>, d: Ledger, now: real)
    requires Keeps(s.(candidate := c), d, now) || Keeps(s.(candidate := c, candidateSince := now), d, now)
    ensures Keeps(s, d, now)
  {
  }

  /** Deciding never touches what only a mutation or an operator may change, and never closes a tripped circuit. */
  lemma {:induction false} DecideKeeps(s: Ledger, o: Observation, now: real)
    ensures Keeps(s, Decide(s, o, now).0, now)
    ensures s.inflight.Some? ==> Truthy(Decide(s, o, now).0.circuit)
  {
    if s.inflight.Some? {
      TripKeeps(s, if Truthy(s.circuit) then s.circuit.value else UnfinishedMutation, Wait, now);
    } else if Armed(s, o) {
      if o.device.None? {
        AbsentKeeps(s.(candidate := None), o, now);
        KeepsCandidate(s, None, Decide(s, o, now).0, now);
      } else {
        PresentKeeps(s, o, o.device.value, now);
      }
    }
  }

  lemma {:induction false} PresentKeeps(s: Ledger, o: Observation, d: Device, now: real)
    requires Armed(s, o) && o.device == Some(d)
    ensures Keeps(s, Decide(s, o, now).0, now)
  {
    var t := if s.candidate != Some(d.generation) then s.(candidate := Some(d.generation), candidateSince := now)
      else s;
    BoundKeeps(t, o, d, now);
    UnboundKeeps(t, o, d.generation, now);
    if t != s { KeepsCandidate(s, Some(d.generation), Decide(s, o, now).0, now); }
  }

  ghost predicate Keeps(s: Ledger, d: Ledger, now: real) {
    && d.bootId == s.bootId && d.desired == s.desired && d.paused == s.paused && d.attempts == s.attempts
    && d.managed == s.managed && d.lastAttempt == s.lastAttempt && d.inflight == s.inflight
    && (Truthy(s.circuit) ==> Truthy(d.circuit))
    && (d.candidateSince == s.candidateSince || d.candidateSince == now)
  }

  // ---- Attempt budgets ------------------------------------------------------------------

  /** What `StateStore.read` insists on, of a ledger of this boot. */
  predicate Validates(s: Ledger) {
    && |s.attempts| <= BOOT_ATTEMPTS && (forall i | 0 <= i < |s.attempts| :: s.attempts[i] >= 0.0)
    && s.candidateSince >= 0.0 && (s.lastAttempt.Some? ==> s.lastAttempt.value >= 0.0)
  }

  /** Attempts in order, two minutes apart, any four spanning an hour; the last one is remembered. */
  ghost predicate Budgeted(s: Ledger, clock: real) {
    && Spaced(s.attempts)
    && (s.attempts != [] ==> s.lastAttempt.Some? && s.attempts[|s.attempts| - 1] <= s.lastAttempt.value <= clock)
  }

  ghost predicate Spaced(a: seq<real>) {
    && (forall i, j | 0 <= i < j < |a| :: a[i] <= a[j])
    && (forall i, j | 0 <= i && j == i + 1 && j < |a| :: a[j] - a[i] >= COOLDOWN_SECONDS)
    && (forall i, j | 0 <= i && j == i + 3 && j < |a| :: a[j] - a[i] >= HOUR)
  }

  /** If the third last attempt is recent, so are all three. */
  lemma {:induction false} RecentThree(a: seq<real>, now: real)
    requires |a| >= 3 && (forall i, j | 0 <= i < j < |a| :: a[i] <= a[j]) && now - a[|a| - 3] < HOUR
    ensures Recent(a, now) >= 3
  {
    var b := a[..|a| - 1];
    var c := b[..|b| - 1];
    assert b[|b| - 1] == a[|a| - 2] && c[|c| - 1] == a[|a| - 3];
    assert Recent(a, now) == Recent(b, now) + 1 && Recent(b, now) == Recent(c, now) + 1 && Recent(c, now) >= 1;
  }

  lemma {:induction false} SpacedAdd(a: seq<real>, t: real)
    requires Spaced(a)
    requires |a| >= 1 ==> t - a[|a| - 1] >= COOLDOWN_SECONDS
    requires |a| >= 3 ==> t - a[|a| - 3] >= HOUR
    ensures Spaced(a + [t])
  {
  }

  /** An attempt that the policy allowed keeps the budget. */
  lemma {:induction false} AttemptKeepsBudget(s: Ledger, o: Observation, now: real, t: real, u: real)
    requires Budgeted(s, now) && Validates(s) && Decide(s, o, now).1 == Start && 0.0 <= now <= t <= u
    ensures var s' := s.(attempts := s.attempts + [t], lastAttempt := Some(u));
      Budgeted(s', u) && Validates(s')
  {
    StartExactly(s, o, now);
    BudgetAllows(s, now, t);
    SpacedAdd(s.attempts, t);
  }

  lemma {:induction false} BudgetAllows(s: Ledger, now: real, t: real)
    requires Budgeted(s, now) && !Spent(s, now) && now <= t
    requires s.lastAttempt.Some? ==> now - s.lastAttempt.value >= COOLDOWN_SECONDS
    ensures var a := s.attempts;
      && (|a| >= 1 ==> t - a[|a| - 1] >= COOLDOWN_SECONDS)
      && (|a| >= 3 ==> t - a[|a| - 3] >= HOUR)
  {
    var a := s.attempts;
    if |a| >= 3 && now - a[|a| - 3] < HOUR { RecentThree(a, now); }
  }
}
