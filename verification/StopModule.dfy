/**
 * The timed stop, and start as a sequence of mutations, against an adversarial host (controller.py:150-170, 392-457).
 */
module StopModule {
  import opened Wrappers
  import opened Controller
  import Policy

  const STOP_SECONDS: real := 2.5
  const COMMAND_SECONDS: real := 1.5
  const SETTLE_SECONDS: real := 0.5
  const POLL_SECONDS: real := 0.025

  datatype Usb = Usb(generation: string, driver: Policy.Driver)

  /**
   * What `snapshot` and `resident_identity` report of the module. `clear` is no error, no inhibition and a ready panel.
   */
  datatype Snapshot = Snapshot(present: bool, owned: bool, selected: Option<string>, device: Option<Usb>, clear: bool,
                               hyprland: bool, fault: bool, drmPresent: bool)

  /**
   * Readings of the host, and mutating commands with the clock reading their timeout was computed from and whether they
   * succeeded.
   */
  datatype Fact =
    | Snapped(snapshot: Snapshot)
    | Discovered(device: Option<Usb>)
    | Identity(present: bool, owned: bool, selected: Option<string>)
    | References(count: Option<nat>)
    | Approved(artifact: bool)
    | Packages(reviewed: bool)
    | Resident(present: bool)
    | Issued(mutation: Mutation, at: real, timeout: real, ok: bool)

  function MutationsOf(facts: seq<Fact>): seq<Mutation> {
    if facts == [] then []
    else MutationsOf(facts[..|facts| - 1]) + if facts[|facts| - 1].Issued? then [facts[|facts| - 1].mutation] else []
  }

  lemma {:induction false} MutationsAdd(a: seq<Fact>, b: seq<Fact>)
    ensures MutationsOf(a + b) == MutationsOf(a) + MutationsOf(b)
  {
    if b == [] {
      assert a + b == a;
    } else {
      var init, last := b[..|b| - 1], b[|b| - 1];
      assert (a + b)[..|a + b| - 1] == a + init && (a + b)[|a + b| - 1] == last;
      MutationsAdd(a, init);
      assert MutationsOf(a) + (MutationsOf(init) + (if last.Issued? then [last.mutation] else []))
          == MutationsOf(a) + MutationsOf(init) + (if last.Issued? then [last.mutation] else []);
    }
  }

  lemma {:induction false} NoMutations(facts: seq<Fact>)
    requires forall k | 0 <= k < |facts| :: !facts[k].Issued?
    ensures MutationsOf(facts) == []
  {
    if facts != [] { NoMutations(facts[..|facts| - 1]); }
  }

  /** Unbind and removal commands take at most 1.5 s, and are over at the latest 2.5 s after the stop began. */
  ghost predicate InTime(facts: seq<Fact>, started: real) {
    forall k | 0 <= k < |facts| && facts[k].Issued? && facts[k].mutation != Insert :: Timely(facts[k], started + 2.5)
  }

  predicate Timely(f: Fact, deadline: real)
    requires f.Issued?
  {
    f.timeout <= 1.5 && f.at + f.timeout <= deadline
  }

  /** What directly precedes an unbind: a look that found the same generation, still bound. */
  ghost predicate StillBound(first: Snapshot, before: seq<Fact>) {
    var n := |before|;
    && n >= 1 && first.device.Some? && first.device.value.driver == Policy.Trigger6
    && before[n - 1] == Discovered(first.device)
  }

  /** Every command so far succeeded, and there was an unbind if the interface was bound. */
  ghost predicate Cleared(first: Snapshot, before: seq<Fact>) {
    && (forall k | 0 <= k < |before| && before[k].Issued? :: before[k].ok)
    && (first.device.Some? && first.device.value.driver == Policy.Trigger6 ==> MutationsOf(before) == [Unbind])
  }

  function Generation(d: Option<Usb>): Option<string> { if d.Some? then Some(d.value.generation) else None }

  /**
   * What directly precedes a removal: two zero reads around an unchanged identity, generation and unbound interface.
   */
  ghost predicate Justified(first: Snapshot, before: seq<Fact>) {
    var n := |before|;
    && n >= 4
    && before[n - 4] == References(Some(0))
    && before[n - 3] == Identity(true, true, first.selected)
    && before[n - 2].Discovered? && Generation(before[n - 2].device) == Generation(first.device)
    && (before[n - 2].device.Some? ==> before[n - 2].device.value.driver == Policy.Unbound)
    && before[n - 1] == References(Some(0))
    && first.present && first.owned
  }

  class Host {
    var clock: real
    /** Everything read and issued so far. */
    ghost var trace: seq<Fact>

    constructor ()
      ensures trace == []
    {
      clock, trace := 0.0, [];
    }

    /** `time.monotonic()`. */
    method Monotonic() returns (t: real)
      modifies this`clock
      ensures t == clock && clock >= old(clock)
    {
      var elapsed: real := *;
      if elapsed > 0.0 { clock := clock + elapsed; }
      t := clock;
    }

    /** `time.sleep` never returns early. */
    method Sleep(seconds: real)
      modifies this`clock
      ensures clock >= old(clock) + seconds
    {
      clock := clock + seconds;
      var t := Monotonic();
    }

    method TakeSnapshot() returns (s: Option<Snapshot>)
      modifies this
      ensures clock >= old(clock)
      ensures trace == old(trace) + if s.Some? then [Snapped(s.value)] else []
    {
      s := *;
      var t := Monotonic();
      if s.Some? { trace := trace + [Snapped(s.value)]; }
    }

    /** None when it refuses. */
    method Discover() returns (d: Option<Option<Usb>>)
      modifies this
      ensures clock >= old(clock)
      ensures trace == old(trace) + if d.Some? then [Discovered(d.value)] else []
    {
      d := *;
      var t := Monotonic();
      if d.Some? { trace := trace + [Discovered(d.value)]; }
    }

    method ResidentIdentity() returns (present: bool, owned: bool, selected: Option<string>)
      modifies this
      ensures clock >= old(clock)
      ensures trace == old(trace) + [Identity(present, owned, selected)]
    {
      present, owned, selected := *, *, *;
      var t := Monotonic();
      trace := trace + [Identity(present, owned, selected)];
    }

    /** The reference count, or None when it is unreadable or malformed. */
    method ReadReferences() returns (n: Option<nat>)
      modifies this
      ensures clock >= old(clock)
      ensures trace == old(trace) + [References(n)]
    {
      n := *;
      var t := Monotonic();
      trace := trace + [References(n)];
    }

    /** A mutating command; whether it succeeds, fails or times out is the host's choice. */
    method Issue(m: Mutation, at: real, timeout: real) returns (ok: bool)
      modifies this
      ensures clock >= old(clock)
      ensures trace == old(trace) + [Issued(m, at, timeout, ok)]
    {
      ok := *;
      trace := trace + [Issued(m, at, timeout, ok)];
      var t := Monotonic();
    }

    /** Whether the module is still there. */
    method StillResident() returns (present: bool)
      modifies this
      ensures clock >= old(clock) && trace == old(trace) + [Resident(present)]
    {
      present := *;
      trace := trace + [Resident(present)];
      var t := Monotonic();
    }

    /** `verify_artifact`, and the reviewed compositor packages. */
    method VerifyArtifact() returns (approved: bool)
      modifies this
      ensures clock >= old(clock) && trace == old(trace) + [Approved(approved)]
    {
      approved := *;
      trace := trace + [Approved(approved)];
      var t := Monotonic();
    }

    method CheckPackages() returns (reviewed: bool)
      modifies this
      ensures clock >= old(clock) && trace == old(trace) + [Packages(reviewed)]
    {
      reviewed := *;
      trace := trace + [Packages(reviewed)];
      var t := Monotonic();
    }

    /** `remaining_timeout`: what is left of the deadline, at most `maximum`; None when nothing is. */
    method RemainingTimeout(deadline: real, maximum: real) returns (timeout: Option<real>, at: real)
      modifies this`clock
      ensures clock >= old(clock) && at == clock
      ensures timeout.Some? <==> at < deadline
      ensures timeout.Some? ==> timeout.value <= maximum && at + timeout.value <= deadline
    {
      at := Monotonic();
      var remaining := deadline - at;
      if remaining <= 0.0 { return None, at; }
      timeout := Some(if remaining < maximum then remaining else maximum);
    }

    /**
     * `settle_module_references`: polls until the count is zero or half a second is over. Each poll either ends the
     * loop or sleeps, so the time left falls strictly; there are at most 22 polls.
     */
    method Settle(deadline: real) returns (ok: bool, ghost polls: seq<Fact>)
      modifies this
      ensures clock >= old(clock) && trace == old(trace) + polls
      ensures 1 <= |polls| <= 22 && forall k | 0 <= k < |polls| :: polls[k].References?
      ensures ok <==> polls[|polls| - 1] == References(Some(0))
      ensures !ok && polls[|polls| - 1].count.Some? ==> clock >= deadline || clock >= old(clock) + 0.5
    {
      var started := Monotonic();
      var until := if deadline < started + SETTLE_SECONDS then deadline else started + SETTLE_SECONDS;
      polls := [];
      while true
        invariant clock >= old(clock) && clock >= started && trace == old(trace) + polls
        invariant forall k | 0 <= k < |polls| :: polls[k].References?
        invariant clock < until ==> (|polls| as real) * POLL_SECONDS <= clock - started
        invariant |polls| <= 21
        decreases (until - clock) * 40.0 + (if clock < until then 1.0 else 0.0), 21 - |polls|
      {
        var n := ReadReferences();
        polls := polls + [References(n)];
        if n.None? { return false, polls; }
        if n.value == 0 { return true, polls; }
        var now := Monotonic();
        var remaining := until - now;
        if remaining <= 0.0 { return false, polls; }
        Sleep(if remaining < POLL_SECONDS then remaining else POLL_SECONDS);
      }
    }
  
    /** The unbind of a bound interface; false when it is refused before or fails. */
    method UnbindExact(snap: Snapshot, deadline: real) returns (ok: bool, ghost facts: seq<Fact>)
      requires snap.device.Some? && snap.device.value.driver == Policy.Trigger6
      modifies this
      ensures clock >= old(clock) && trace == old(trace) + facts
      ensures Unbinding(snap, facts, deadline) && (ok <==> Cleared(snap, facts))
    {
      facts := [];
      var latest := Discover();
      if latest.None? { return false, facts; }
      facts := [Discovered(latest.value)];
      NoMutations(facts);
      var device := latest.value;
      if device.None? || device.value.generation != snap.device.value.generation
        || device.value.driver != Policy.Trigger6 {
        return false, facts;
      }
      var timeout, at := RemainingTimeout(deadline, COMMAND_SECONDS);
      if timeout.None? { return false, facts; }
      ok := Issue(Unbind, at, timeout.value);
      OneMore(facts, Issued(Unbind, at, timeout.value, ok));
      facts := facts + [Issued(Unbind, at, timeout.value, ok)];
    }

    /** The checks between unbind and removal. */
    method Recheck(snap: Snapshot, deadline: real) returns (ok: bool, ghost facts: seq<Fact>)
      requires snap.present && snap.owned
      modifies this
      ensures clock >= old(clock) && trace == old(trace) + facts
      ensures forall k | 0 <= k < |facts| :: !facts[k].Issued?
      ensures ok ==> Justified(snap, facts)
    {
      ghost var polls;
      ok, polls := Settle(deadline);
      facts := polls;
      if !ok { return; }
      var present, owned, selected := ResidentIdentity();
      facts := facts + [Identity(present, owned, selected)];
      if !present || !owned || selected != snap.selected { return false, facts; }
      var latest := Discover();
      if latest.None? { return false, facts; }
      facts := facts + [Discovered(latest.value)];
      var device := latest.value;
      if Generation(device) != Generation(snap.device) { return false, facts; }
      if device.Some? && device.value.driver != Policy.Unbound { return false, facts; }
      var n := ReadReferences();
      facts := facts + [References(n)];
      ok := n == Some(0);
    }

    /** Unbinds when the module is bound. */
    method UnbindIfBound(snap: Snapshot, deadline: real) returns (ok: bool, ghost facts: seq<Fact>)
      modifies this
      ensures clock >= old(clock) && trace == old(trace) + facts
      ensures Unbinding(snap, facts, deadline) && (ok <==> Cleared(snap, facts))
    {
      ok, facts := true, [];
      if snap.device.Some? && snap.device.value.driver == Policy.Trigger6 {
        ok, facts := UnbindExact(snap, deadline);
      }
    }

    /** `stop_module`. */
    method Stop() returns (ok: bool, ghost started: real, ghost facts: seq<Fact>)
      modifies this
      ensures old(clock) <= started <= clock && trace == old(trace) + facts
      ensures Sound(facts, started)
      ensures ok <==> Done(facts)
    {
      var start := Monotonic();
      started := start;
      var snap := TakeSnapshot();
      if snap.None? { return false, started, []; }
      ghost var body: seq<Fact> := [];
      ok := !snap.value.present;
      facts := [Snapped(snap.value)];
      if snap.value.present && snap.value.owned {
        ok, body := StopOwned(snap.value, start);
        Assoc(old(trace), facts, body);
        facts := facts + body;
      } else {
        QuietIsSound(snap.value, [], start);
        assert facts + [] == facts;
      }
    }

    /** The stop of a resident, approved module. */
    method StopOwned(snap: Snapshot, start: real) returns (ok: bool, ghost body: seq<Fact>)
      requires snap.present && snap.owned && start <= clock
      modifies this
      ensures clock >= old(clock) && trace == old(trace) + body
      ensures Sound([Snapped(snap)] + body, start) && (ok <==> Done([Snapped(snap)] + body))
    {
      ok, body := CheckedUnbind(snap, start + STOP_SECONDS);
      QuietIsSound(snap, body, start);
      QuietIsNotDone(snap, body, start + STOP_SECONDS);
      if ok {
        ghost var last;
        ok, last := RemoveModule(start + STOP_SECONDS);
        RemovalIsSound(snap, body, last, start);
        Assoc([Snapped(snap)], body, last);
        Assoc(old(trace), body, last);
        body := body + last;
      }
    }

    /** Unbind, and the checks after it. */
    method CheckedUnbind(snap: Snapshot, deadline: real) returns (ok: bool, ghost body: seq<Fact>)
      requires snap.present && snap.owned
      modifies this
      ensures clock >= old(clock) && trace == old(trace) + body
      ensures Unbinding(snap, body, deadline) && (ok ==> Justified(snap, body) && Cleared(snap, body))
    {
      ok, body := UnbindIfBound(snap, deadline);
      if ok {
        ghost var unbinds, checks := body, [];
        ok, checks := Recheck(snap, deadline);
        body := unbinds + checks;
        Assoc(old(trace), unbinds, checks);
        AddChecks(snap, unbinds, checks, deadline);
      }
    }

    /** The removal itself, and whether the module is gone after it. */
    method RemoveModule(deadline: real) returns (ok: bool, ghost last: seq<Fact>)
      modifies this
      ensures clock >= old(clock) && trace == old(trace) + last && Removal(last, deadline)
      ensures ok <==> Gone(last)
    {
      var timeout, at := RemainingTimeout(deadline, COMMAND_SECONDS);
      if timeout.None? { return false, []; }
      ok := Issue(Remove, at, timeout.value);
      last := [Issued(Remove, at, timeout.value, ok)];
      if ok {
        var resident := StillResident();
        last := last + [Resident(resident)];
        ok := !resident;
      }
    }

    /** `start_module`: at most one stop of the old module, then at most one insertion, then checks. */
    method Start(generation: string) returns (ok: bool, ghost facts: seq<Fact>)
      modifies this
      ensures trace == old(trace) + facts && SoundStart(facts, generation)
      ensures ok <==> Works(facts, generation)
    {
      ghost var prepared;
      ok, prepared := Prepare(generation);
      facts := prepared;
      NoInsertion(facts, generation);
      if !ok { return; }
      var latest := TakeSnapshot();
      ok := false;
      if latest.Some? {
        facts := prepared + [Snapped(latest.value)];
        Assoc(old(trace), prepared, [Snapped(latest.value)]);
        OneMore(prepared, Snapped(latest.value));
        NoInsertion(facts, generation);
        if Fit(latest.value, generation) && !latest.value.present {
          ghost var last;
          ok, last := Insertion(generation);
          InsertionIsSound(prepared, latest.value, last, generation);
          Assoc(old(trace), facts, last);
          facts := facts + last;
        }
      }
    }

    /** The insertion and the look after it. */
    method Insertion(generation: string) returns (ok: bool, ghost last: seq<Fact>)
      modifies this
      ensures trace == old(trace) + last && Inserting(last) && (ok <==> Inserted(last, generation))
    {
      var t := Monotonic();
      ok := Issue(Insert, t, 8.0);
      last := [Issued(Insert, t, 8.0, ok)];
      if ok {
        var after := TakeSnapshot();
        ok := after.Some? && Bound(after.value, generation);
        if after.Some? { last := last + [Snapped(after.value)]; }
      }
    }

    /** Everything before the second look: approvals, and the stop of an old module. */
    method Prepare(generation: string) returns (ok: bool, ghost facts: seq<Fact>)
      modifies this
      ensures trace == old(trace) + facts
      ensures StopShape(MutationsOf(facts)) && Insert !in MutationsOf(facts) && (ok ==> Prepared(facts, generation))
    {
      var present;
      ok, present, facts := Approve(generation);
      NoMutations(facts);
      if ok && present {
        ghost var first := facts;
        ghost var started, stop;
        ok, started, stop := Stop();
        facts := first + stop;
        Assoc(old(trace), first, stop);
        StoppedIsPrepared(first, stop, generation);
      }
    }

    /** The approvals. */
    method Approve(generation: string) returns (ok: bool, present: bool, ghost facts: seq<Fact>)
      modifies this
      ensures trace == old(trace) + facts && (forall k | 0 <= k < |facts| :: !facts[k].Issued?)
      ensures ok ==> |facts| == 3 && Fitting(facts, generation) && present == facts[1].snapshot.present
    {
      var approved := VerifyArtifact();
      facts := [Approved(approved)];
      if !approved { return false, false, facts; }
      var before := TakeSnapshot();
      if before.None? { return false, false, facts; }
      facts := [Approved(true), Snapped(before.value)];
      if !Fit(before.value, generation) || !before.value.hyprland { return false, false, facts; }
      ok := CheckPackages();
      facts := [Approved(true), Snapped(before.value), Packages(ok)];
      present := before.value.present;
    }
  }

  /** Clear to start, with the wanted generation present and unbound. */
  predicate Fit(s: Snapshot, generation: string) {
    s.clear && s.device.Some? && s.device.value.generation == generation && s.device.value.driver == Policy.Unbound
  }

  /** The wanted generation bound to the approved module, faultless, with its display. */
  predicate Bound(s: Snapshot, generation: string) {
    && s.device.Some? && s.device.value.generation == generation && s.device.value.driver == Policy.Trigger6
    && s.owned && !s.fault && s.drmPresent
  }

  /** Before a removal: at most a look and an unbind, each as it must be. */
  ghost predicate Unbinding(snap: Snapshot, facts: seq<Fact>, deadline: real) {
    && (MutationsOf(facts) == [] || MutationsOf(facts) == [Unbind])
    && forall k | 0 <= k < |facts| && facts[k].Issued? ::
         facts[k].mutation == Unbind && Timely(facts[k], deadline) && StillBound(snap, facts[..k])
  }

  /** The removal command, and the look after it if it succeeded. */
  predicate Removal(last: seq<Fact>, deadline: real) {
    last == [] || (&& last[0].Issued? && last[0].mutation == Remove && Timely(last[0], deadline)
                   && (|last| == 1 || (|last| == 2 && last[0].ok && last[1].Resident?)))
  }

  predicate Gone(last: seq<Fact>) {
    |last| == 2 && last[0].Issued? && last[0].mutation == Remove && last[0].ok && last[1] == Resident(false)
  }

  /** A stop succeeded: there was no module, or its removal succeeded and it is gone. */
  predicate Done(facts: seq<Fact>) {
    || (|facts| == 1 && facts[0].Snapped? && !facts[0].snapshot.present)
    || (|facts| > 2 && Gone(facts[|facts| - 2..]))
  }

  /**
   * What every stop leaves behind, however it ends: its commands in time, an unbind only of the generation seen first
   * and still bound, a removal only after all commands before it succeeded and the checks between.
   */
  ghost predicate Sound(facts: seq<Fact>, started: real) {
    && StopShape(MutationsOf(facts)) && InTime(facts, started)
    && forall k | 0 <= k < |facts| && facts[k].Issued? ::
         k > 0 && facts[0].Snapped? && SoundCommand(facts[0].snapshot, facts[k].mutation, facts[1..k])
  }

  ghost predicate SoundCommand(first: Snapshot, m: Mutation, before: seq<Fact>) {
    match m
    case Unbind => StillBound(first, before)
    case Remove => Justified(first, before) && Cleared(first, before)
    case Insert => false
  }

  predicate Inserting(last: seq<Fact>) {
    && last != [] && last[0].Issued? && last[0].mutation == Insert && last[0].timeout == 8.0
    && (|last| == 1 || (|last| == 2 && last[0].ok && last[1].Snapped?))
  }

  predicate Inserted(last: seq<Fact>, generation: string) {
    && |last| == 2 && last[0].Issued? && last[0].mutation == Insert && last[0].ok
    && last[1].Snapped? && Bound(last[1].snapshot, generation)
  }

  /** A start succeeded: the insertion did, and the look after it found everything in place. */
  predicate Works(facts: seq<Fact>, generation: string) {
    |facts| > 2 && Inserted(facts[|facts| - 2..], generation)
  }

  /** Approved, fit and reviewed. */
  predicate Fitting(facts: seq<Fact>, generation: string) {
    && |facts| >= 3 && facts[0] == Approved(true)
    && facts[1].Snapped? && Fit(facts[1].snapshot, generation) && facts[1].snapshot.hyprland
    && facts[2] == Packages(true)
  }

  /** And the old module, if any, stopped. */
  predicate Prepared(facts: seq<Fact>, generation: string) {
    Fitting(facts, generation) && if facts[1].snapshot.present then Done(facts[3..]) else |facts| == 3
  }

  /** What every start leaves behind: one insertion at most, prepared, right after a look that found the module gone. */
  ghost predicate SoundStart(facts: seq<Fact>, generation: string) {
    && StartShape(MutationsOf(facts))
    && forall k | 0 <= k < |facts| && facts[k].Issued? && facts[k].mutation == Insert ::
         k > 0 && InsertedWell(facts, k, generation)
  }

  ghost predicate InsertedWell(facts: seq<Fact>, k: nat, generation: string)
    requires 0 < k < |facts| && facts[k].Issued?
  {
    && facts[k].timeout == 8.0 && Prepared(facts[..k - 1], generation)
    && facts[k - 1].Snapped? && Fit(facts[k - 1].snapshot, generation) && !facts[k - 1].snapshot.present
  }

  // ---- Why -----------------------------------------------------------------------------------

  /** Readings add no mutation, and a justified recheck justifies whatever came before it. */
  lemma {:induction false} AddChecks(snap: Snapshot, unbinds: seq<Fact>, checks: seq<Fact>, deadline: real)
    requires Unbinding(snap, unbinds, deadline) && Cleared(snap, unbinds)
    requires forall k | 0 <= k < |checks| :: !checks[k].Issued?
    ensures Unbinding(snap, unbinds + checks, deadline) && Cleared(snap, unbinds + checks)
    ensures Justified(snap, checks) ==> Justified(snap, unbinds + checks)
  {
    var all := unbinds + checks;
    NoMutations(checks);
    MutationsAdd(unbinds, checks);
    forall k | 0 <= k < |all| && all[k].Issued?
      ensures all[k].mutation == Unbind && Timely(all[k], deadline) && StillBound(snap, all[..k]) && all[k].ok
    {
      assert k < |unbinds| && all[k] == unbinds[k] && all[..k] == unbinds[..k];
    }
    if Justified(snap, checks) {
      var n, c := |all|, |checks|;
      assert all[n - 4] == checks[c - 4] && all[n - 3] == checks[c - 3];
      assert all[n - 2] == checks[c - 2] && all[n - 1] == checks[c - 1];
    }
  }

  lemma {:induction false} QuietIsSound(snap: Snapshot, body: seq<Fact>, started: real)
    requires Unbinding(snap, body, started + 2.5)
    ensures Sound([Snapped(snap)] + body, started) && MutationsOf([Snapped(snap)] + body) == MutationsOf(body)
  {
    var facts := [Snapped(snap)] + body;
    NoMutations([Snapped(snap)]);
    MutationsAdd([Snapped(snap)], body);
    forall k | 0 <= k < |facts| && facts[k].Issued?
      ensures k > 0 && facts[k].mutation == Unbind && Timely(facts[k], started + 2.5)
      ensures SoundCommand(snap, facts[k].mutation, facts[1..k])
    {
      assert facts[k] == body[k - 1] && facts[1..k] == body[..k - 1];
    }
  }

  lemma {:induction false} QuietIsNotDone(snap: Snapshot, body: seq<Fact>, deadline: real)
    requires Unbinding(snap, body, deadline) && snap.present
    ensures !Done([Snapped(snap)] + body)
  {
    var facts := [Snapped(snap)] + body;
    if |body| >= 2 { assert facts[|facts| - 2..][0] == body[|body| - 2]; }
  }

  /** A removal after all that. */
  lemma {:induction false} RemovalIsSound(snap: Snapshot, body: seq<Fact>, last: seq<Fact>, started: real)
    requires Unbinding(snap, body, started + 2.5) && Justified(snap, body) && Cleared(snap, body)
    requires Removal(last, started + 2.5) && snap.present
    ensures var facts := [Snapped(snap)] + (body + last);
      Sound(facts, started) && (Done(facts) <==> Gone(last))
  {
    var quiet := [Snapped(snap)] + body;
    var facts := [Snapped(snap)] + (body + last);
    assert facts == quiet + last;
    RemovalShape(snap, body, last, started);
    forall k | 0 <= k < |facts| && facts[k].Issued?
      ensures k > 0 && facts[k].mutation != Insert && Timely(facts[k], started + 2.5)
      ensures SoundCommand(snap, facts[k].mutation, facts[1..k])
    {
      CommandAt(snap, body, last, started, k);
    }
    RemovalEnds(snap, body, last, started + 2.5);
  }

  lemma {:induction false} CommandAt(snap: Snapshot, body: seq<Fact>, last: seq<Fact>, started: real, k: nat)
    requires Unbinding(snap, body, started + 2.5) && Justified(snap, body) && Cleared(snap, body)
    requires Removal(last, started + 2.5)
    requires k < 1 + |body| + |last| && ([Snapped(snap)] + (body + last))[k].Issued?
    ensures var facts := [Snapped(snap)] + (body + last);
      && k > 0 && facts[k].mutation != Insert && Timely(facts[k], started + 2.5)
      && SoundCommand(snap, facts[k].mutation, facts[1..k])
  {
    var facts := [Snapped(snap)] + (body + last);
    if k <= |body| {
      assert facts[k] == body[k - 1] && facts[1..k] == body[..k - 1];
    } else {
      assert facts[k] == last[k - 1 - |body|];
      assert facts[1..1 + |body|] == body;
    }
  }

  lemma {:induction false} RemovalShape(snap: Snapshot, body: seq<Fact>, last: seq<Fact>, started: real)
    requires Unbinding(snap, body, started + 2.5) && Removal(last, started + 2.5)
    ensures StopShape(MutationsOf([Snapped(snap)] + body + last))
  {
    QuietIsSound(snap, body, started);
    RemovalMutations(last, started + 2.5);
    MutationsAdd([Snapped(snap)] + body, last);
  }

  lemma {:induction false} RemovalMutations(last: seq<Fact>, deadline: real)
    requires Removal(last, deadline)
    ensures MutationsOf(last) == [] || MutationsOf(last) == [Remove]
  {
    if |last| >= 1 { OneMore([], last[0]); }
    if |last| == 1 { assert [] + [last[0]] == last; }
    if |last| == 2 {
      OneMore([last[0]], last[1]);
      assert [] + [last[0]] == [last[0]] && [last[0]] + [last[1]] == last;
    }
  }

  lemma {:induction false} RemovalEnds(snap: Snapshot, body: seq<Fact>, last: seq<Fact>, deadline: real)
    requires Unbinding(snap, body, deadline) && Justified(snap, body) && Removal(last, deadline) && snap.present
    ensures Done([Snapped(snap)] + (body + last)) <==> Gone(last)
  {
    var facts := [Snapped(snap)] + (body + last);
    var n := |facts|;
    if |last| == 2 {
      assert facts[n - 2..] == last;
    } else if |last| == 1 {
      assert facts[n - 2..][1] == last[0];
    } else {
      assert facts[n - 2..][1] == body[|body| - 1];
    }
  }

  lemma {:induction false} NoneIssued(facts: seq<Fact>, m: Mutation)
    requires m !in MutationsOf(facts)
    ensures forall k | 0 <= k < |facts| :: facts[k].Issued? ==> facts[k].mutation != m
  {
    if facts != [] {
      NoneIssued(facts[..|facts| - 1], m);
      forall k | 0 <= k < |facts| - 1 ensures facts[k].Issued? ==> facts[k].mutation != m {
        assert facts[k] == facts[..|facts| - 1][k];
      }
    }
  }

  lemma {:induction false} OneMore(facts: seq<Fact>, f: Fact)
    ensures MutationsOf(facts + [f]) == MutationsOf(facts) + if f.Issued? then [f.mutation] else []
  {
    assert (facts + [f])[..|facts|] == facts;
  }

  lemma {:induction false} StoppedIsPrepared(first: seq<Fact>, stop: seq<Fact>, generation: string)
    requires |first| == 3 && Fitting(first, generation) && first[1].snapshot.present
    requires MutationsOf(first) == [] && StopShape(MutationsOf(stop))
    ensures var facts := first + stop;
      && StopShape(MutationsOf(facts)) && Insert !in MutationsOf(facts) && (Done(stop) ==> Prepared(facts, generation))
  {
    MutationsAdd(first, stop);
    assert (first + stop)[3..] == stop && MutationsOf(first) + MutationsOf(stop) == MutationsOf(stop);
  }

  lemma {:induction false} NoInsertion(facts: seq<Fact>, generation: string)
    requires StopShape(MutationsOf(facts)) && Insert !in MutationsOf(facts)
    ensures SoundStart(facts, generation) && !Works(facts, generation)
  {
    NoneIssued(facts, Insert);
    if |facts| > 2 { assert facts[|facts| - 2..][0] == facts[|facts| - 2]; }
  }

  lemma {:induction false} InsertionIsSound(prepared: seq<Fact>, look: Snapshot, last: seq<Fact>, generation: string)
    requires StopShape(MutationsOf(prepared)) && Insert !in MutationsOf(prepared) && Prepared(prepared, generation)
    requires Fit(look, generation) && !look.present && Inserting(last)
    ensures var facts := prepared + [Snapped(look)] + last;
      SoundStart(facts, generation) && (Works(facts, generation) <==> Inserted(last, generation))
  {
    var facts := prepared + [Snapped(look)] + last;
    InsertionShape(prepared, look, last);
    forall k | 0 <= k < |facts| && facts[k].Issued? && facts[k].mutation == Insert
      ensures 0 < k && InsertedWell(facts, k, generation)
    {
      InsertionAt(prepared, look, last, k);
      assert facts[..k - 1] == prepared && facts[k - 1] == Snapped(look);
    }
    InsertionEnds(prepared + [Snapped(look)], last, generation);
  }

  lemma {:induction false} InsertionAt(prepared: seq<Fact>, look: Snapshot, last: seq<Fact>, k: nat)
    requires Insert !in MutationsOf(prepared) && Inserting(last) && k < |prepared| + 1 + |last|
    requires var f := (prepared + [Snapped(look)] + last)[k]; f.Issued? && f.mutation == Insert
    ensures k == |prepared| + 1 && (prepared + [Snapped(look)] + last)[k] == last[0]
  {
    NoneIssued(prepared, Insert);
    var n := |prepared| + 1;
    if n <= k { assert (prepared + [Snapped(look)] + last)[k] == last[k - n]; }
  }

  lemma {:induction false} InsertionEnds(before: seq<Fact>, last: seq<Fact>, generation: string)
    requires |before| >= 1 && Inserting(last)
    ensures |before| >= 2 ==> (Works(before + last, generation) <==> Inserted(last, generation))
  {
    var facts := before + last;
    var n := |facts|;
    if |last| == 2 { assert facts[n - 2..] == last; } else { assert facts[n - 2..][1] == last[0]; }
  }

  lemma {:induction false} InsertionShape(prepared: seq<Fact>, look: Snapshot, last: seq<Fact>)
    requires StopShape(MutationsOf(prepared)) && Insert !in MutationsOf(prepared) && Inserting(last)
    ensures var before := prepared + [Snapped(look)];
      Insert !in MutationsOf(before) && StartShape(MutationsOf(before + last))
  {
    var before := prepared + [Snapped(look)];
    OneMore(prepared, Snapped(look));
    InsertingMutations(last);
    MutationsAdd(before, last);
    var m := MutationsOf(before);
    assert (m + [Insert])[..|m|] == m && (m + [Insert])[|m|] == Insert;
  }

  lemma {:induction false} InsertingMutations(last: seq<Fact>)
    requires Inserting(last)
    ensures MutationsOf(last) == [Insert]
  {
    OneMore([], last[0]);
    if |last| == 1 {
      assert [] + [last[0]] == last;
    } else {
      OneMore([last[0]], last[1]);
      assert [] + [last[0]] == [last[0]] && [last[0]] + [last[1]] == last;
    }
  }
}
