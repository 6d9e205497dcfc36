/**
 * What commands and ticks leave on disk, and what that means for later ticks (controller.py:67-125, 535-579, 622-677).
 */
module ControllerLaws {
  import opened Wrappers
  import opened Policy
  import opened Controller
  import opened ControllerRuns

  // ---- Commands ------------------------------------------------------------------------------

  /** When a command is carried out; a stop is, when the host's stop succeeds. */
  predicate Accepts(s: Ledger, c: Command, i: CommandInput) {
    match c
    case Pause => if s.desired then i.stop.failure.None? else i.markerTrusted
    case Resume =>
      || (!s.desired && !s.paused && !i.markerPresent)
      || (s.paused && s.inflight.None? && (i.markerPresent ==> i.markerTrusted))
    case StopCommand => i.stop.failure.None?
    case ClearCircuit =>
      && !i.snapshotFails && (i.device.Some? ==> i.device.value.driver == Unbound)
      && (i.markerPresent ==> i.markerTrusted)
    case StartCommand => i.artifactApproved
  }

  /** The ledger that a whole command leaves. A stop that failed leaves its trace: in flight, and a tripped circuit. */
  predicate Leaves(s: Ledger, c: Command, i: CommandInput, d: Ledger) {
    match c
    case Pause => if s.desired then Stopped(s.(paused := true), SleepStop, i, d) else d == s
    case Resume => d == if Accepts(s, c, i) && s.paused then s.(paused := false, candidate := None) else s
    case StopCommand => Stopped(s.(desired := false), DoStop, i, d)
    case ClearCircuit => if Accepts(s, c, i) then IsFresh(d, s.bootId) else d == s
    case StartCommand => d == if Accepts(s, c, i) then s.(desired := true) else s
  }

  predicate Stopped(s: Ledger, act: Act, i: CommandInput, d: Ledger) {
    if i.stop.failure.None? then d == s.(managed := None, inflight := None)
    else
      var text := i.stop.failure.value;
      var error := if |text| <= 2048 then text else text[..2048];
      && Truthy(d.circuit) && d.inflight == Some(Inflight(act, None, Some(error), None))
      && d == s.(circuit := d.circuit, reason := d.circuit.value, inflight := d.inflight)
  }

  predicate IsFresh(d: Ledger, boot: string) {
    && d.bootId == boot && !d.desired && !d.paused && d.circuit == None && d.attempts == [] && d.candidate == None
    && d.managed == None && d.lastAttempt == None && d.inflight == None
  }

  lemma {:induction false} WriteLast(w: World, es: seq<Event>, l: Ledger)
    requires es != [] && es[|es| - 1] == Write(l)
    ensures ApplyAll(w, es).disk == l
  {
    var a := es[..|es| - 1];
    assert es == a + [Write(l)];
    ApplyAdd(w, a, [Write(l)]);
    assert [Write(l)][1..] == [];
  }

  /** What every command leaves, carried through. */
  lemma {:induction false} CommandLeaves(w: World, c: Command, i: CommandInput)
    ensures Leaves(w.disk, c, i, ApplyAll(w, CommandEvents(w.disk, c, i)).disk)
  {
    var s, es := w.disk, CommandEvents(w.disk, c, i);
    match c
    case Pause =>
      if s.desired {
        StopLeaves(w, Pausing(s), i.stop);
      } else if i.markerTrusted {
        assert es[1..] == [];
      }
    case Resume =>
      if s.paused && Accepts(s, Resume, i) { WriteLast(w, es, s.(paused := false, candidate := None)); }
    case StopCommand =>
      StopLeaves(w, Stopping(s), i.stop);
    case ClearCircuit => ClearLeaves(w, i);
    case StartCommand => if i.artifactApproved { WriteLast(w, es, s.(desired := true)); }
  }

  lemma {:induction false} StopLeaves(w: World, p: Ledger, stop: Outcome)
    requires p.inflight.Some?
    ensures var d := ApplyAll(w, [Write(p)] + StopPreserving(p, stop)).disk;
      if stop.failure.None? then d == p.(managed := None, inflight := None)
      else
        var message := CommandFailed(Cut(stop.failure.value));
        d == p.(circuit := Some(message), reason := message,
                inflight := Some(p.inflight.value.(error := Some(Cut(stop.failure.value)))))
  {
    var es := [Write(p)] + StopPreserving(p, stop);
    assert es[|es| - 1].Write?;
    WriteLast(w, es, es[|es| - 1].ledger);
  }

  lemma {:induction false} ClearLeaves(w: World, i: CommandInput)
    ensures Leaves(w.disk, ClearCircuit, i, ApplyAll(w, CommandEvents(w.disk, ClearCircuit, i)).disk)
  {
    var es, renew := CommandEvents(w.disk, ClearCircuit, i), [Renew(FreshState(w.disk.bootId))];
    assert renew[1..] == [];
    if es != [] {
      assert es == es[..|es| - 1] + renew;
      ApplyAdd(w, es[..|es| - 1], renew);
    }
  }

  /** In every run: a command that was not cut short leaves the ledger so. */
  lemma {:induction false} CommandOutcome(states: seq<World>, clocks: seq<real>, steps: seq<Step>, k: nat)
    requires Run(states, clocks, steps) && k < |steps| && steps[k].Operate? && steps[k].cut >= 6
    ensures Leaves(states[k].disk, steps[k].command, steps[k].arguments, states[k + 1].disk)
  {
    var w, c, i := states[k], steps[k].command, steps[k].arguments;
    RunInv(states, clocks, steps, k);
    var es := CommandEvents(w.disk, c, i);
    assert Admitted(steps[k], clocks[k], clocks[k + 1]);
    AtMostSix(w.disk, c, i);
    assert es[..|es|] == es;
    assert states[k + 1] == ApplyAll(w, StepEvents(w.disk, steps[k]));
    CommandLeaves(w, c, i);
  }

  lemma {:induction false} AtMostSix(s: Ledger, c: Command, i: CommandInput)
    requires Shaped(StopCall, i.stop)
    ensures |CommandEvents(s, c, i)| <= 6
  {
  }

  // ---- What the written ledgers keep -----------------------------------------------------------

  /** Every ledger written satisfies `p`. */
  ghost predicate AllWritten(es: seq<Event>, p: Ledger -> bool) {
    forall k | 0 <= k < |es| :: (es[k].Write? || es[k].Renew?) ==> p(es[k].ledger)
  }

  lemma {:induction false} WrittenAdd(a: seq<Event>, b: seq<Event>, p: Ledger -> bool)
    requires AllWritten(a, p) && AllWritten(b, p)
    ensures AllWritten(a + b, p)
  {
  }

  /** Wherever the trace is cut, the disk then satisfies it too. */
  lemma {:induction false} WrittenHolds(w: World, es: seq<Event>, p: Ledger -> bool)
    requires AllWritten(es, p) && p(w.disk)
    ensures p(ApplyAll(w, es).disk)
    decreases |es|
  {
    if es != [] { WrittenHolds(Apply(w, es[0]), es[1..], p); }
  }

  lemma {:induction false} CallWritesNothing(c: Call, o: Outcome, p: Ledger -> bool)
    ensures AllWritten(CallEvents(c, o), p)
  {
  }

  /** A tick never touches what the operator wants. */
  lemma {:induction false} TickWrites(s: Ledger, i: TickInput, p: Ledger -> bool)
    requires forall l: Ledger :: l.desired == s.desired && l.paused == s.paused ==> p(l)
    ensures AllWritten(TickEvents(s, i), p)
  {
    if i.snapshot.Some? {
      var (d, action) := Decide(s, i.snapshot.value, i.now);
      DecideKeeps(s, i.snapshot.value, i.now);
      if action != Wait && i.snapshot.value.device.Some? {
        var g := i.snapshot.value.device.value.generation;
        var m := Ahead(d, action, g, i);
        CallWritesNothing(StartCall, i.start, p);
        CallWritesNothing(StopCall, i.stop, p);
        ActionWrites(m, action, g, i, p);
        WrittenAdd([Write(d), Write(m)], if action == Start then StartEvents(m, g, i) else StopEvents(m, i), p);
      }
    }
  }

  lemma {:induction false} ActionWrites(m: Ledger, action: Action, g: string, i: TickInput, p: Ledger -> bool)
    requires m.inflight.Some? && forall l: Ledger :: l.desired == m.desired && l.paused == m.paused ==> p(l)
    ensures AllWritten(if action == Start then StartEvents(m, g, i) else StopEvents(m, i), p)
  {
    CallWritesNothing(StartCall, i.start, p);
    CallWritesNothing(StopCall, i.stop, p);
    var a, b := CallEvents(StartCall, i.start), CallEvents(StopCall, i.stop);
    if action == Start {
      var es := StartEvents(m, g, i);
      if i.start.failure.None? {
        WrittenAdd(a, [es[|es| - 1]], p);
      } else {
        WrittenAdd(a, b, p);
        WrittenAdd(a + b, [es[|es| - 1]], p);
      }
    } else {
      var es := StopEvents(m, i);
      WrittenAdd(b, [es[|es| - 1]], p);
    }
  }

  lemma {:induction false} StopWrites(q: Ledger, stop: Outcome, p: Ledger -> bool)
    requires q.inflight.Some? && forall l: Ledger :: l.desired == q.desired && l.paused == q.paused ==> p(l)
    ensures AllWritten([Write(q)] + StopPreserving(q, stop), p)
  {
    CallWritesNothing(StopCall, stop, p);
    var es := StopPreserving(q, stop);
    WrittenAdd(CallEvents(StopCall, stop), [es[|es| - 1]], p);
    WrittenAdd([Write(q)], es, p);
  }

  /** What the two stopping commands write first. */
  function Pausing(s: Ledger): Ledger { s.(paused := true, inflight := Some(Inflight(SleepStop, None, None, None))) }

  function Stopping(s: Ledger): Ledger { s.(desired := false, inflight := Some(Inflight(DoStop, None, None, None))) }

  predicate Unwanted(l: Ledger) { !l.desired }

  predicate Asleep(l: Ledger) { l.paused }

  /** Only a start command makes the module wanted; a stop command makes it unwanted from its first write. */
  lemma {:induction false} CommandWants(s: Ledger, c: Command, i: CommandInput)
    requires c == StopCommand || (c != StartCommand && !s.desired)
    ensures AllWritten(CommandEvents(s, c, i), Unwanted)
  {
    match c
    case Pause => if s.desired { StopWrites(Pausing(s), i.stop, Unwanted); }
    case StopCommand => StopWrites(Stopping(s), i.stop, Unwanted);
    case _ =>
  }

  /** Only resume and clear-circuit end a pause; a pause of a wanted module holds from its first write. */
  lemma {:induction false} CommandPauses(s: Ledger, c: Command, i: CommandInput)
    requires (c == Pause && s.desired) || (c != Resume && c != ClearCircuit && s.paused)
    ensures AllWritten(CommandEvents(s, c, i), Asleep)
  {
    match c
    case Pause => if s.desired { StopWrites(Pausing(s), i.stop, Asleep); }
    case StopCommand => StopWrites(Stopping(s), i.stop, Asleep);
    case _ =>
  }

  // ---- Over whole runs ------------------------------------------------------------------------

  /** The trace of a step is a prefix of the whole one. */
  lemma {:induction false} StepWritten(s: Ledger, st: Step, p: Ledger -> bool)
    requires AllWritten(Whole(s, st), p)
    ensures AllWritten(StepEvents(s, st), p)
  {
  }

  /** No tick from step `m` to step `n` begins a start. */
  ghost predicate NoStarts(states: seq<World>, steps: seq<Step>, m: nat, n: nat)
    requires m <= n <= |steps| <= |states|
  {
    forall k | m <= k < n && steps[k].Tick? :: StartCall !in Calls(StepEvents(states[k].disk, steps[k]))
  }

  /** The operator does not give this command. */
  ghost predicate Without(steps: seq<Step>, m: nat, n: nat, c: Command)
    requires m <= n <= |steps|
  {
    forall k | m <= k < n :: !(steps[k].Operate? && steps[k].command == c)
  }

  /** Every ledger written from step `m` to step `n` satisfies `p`. */
  ghost predicate RunWritten(states: seq<World>, steps: seq<Step>, m: nat, n: nat, p: Ledger -> bool)
    requires m <= n <= |steps| <= |states|
  {
    forall k | m <= k < n :: AllWritten(StepEvents(states[k].disk, steps[k]), p)
  }

  lemma {:induction false} StartIsArmed(s: Ledger, i: TickInput, cut: nat)
    requires StartCall in Calls(StepEvents(s, Tick(i, cut)))
    ensures s.desired && !s.paused && StartCall in Calls(TickEvents(s, i))
  {
    CallsPrefix(TickEvents(s, i), StepEvents(s, Tick(i, cut)));
    NeverTheManaged(s, i);
  }

  /** An unwanted module stays unwanted, and is not started, until a start command. */
  lemma {:induction false} StaysUnwanted(states: seq<World>, clocks: seq<real>, steps: seq<Step>, m: nat, n: nat)
    requires Run(states, clocks, steps) && m <= n < |states| && !states[m].disk.desired
    requires n <= |steps| && Without(steps, m, n, StartCommand)
    ensures !states[n].disk.desired && NoStarts(states, steps, m, n) && RunWritten(states, steps, m, n, Unwanted)
    decreases n - m
  {
    if m < n {
      var k := n - 1;
      StaysUnwanted(states, clocks, steps, m, k);
      UnwantedStep(states[k].disk, steps[k]);
      StepHolds(states, clocks, steps, k, Unwanted);
    }
  }

  lemma {:induction false} StepHolds(states: seq<World>, clocks: seq<real>, steps: seq<Step>, k: nat, p: Ledger -> bool)
    requires Run(states, clocks, steps) && k < |steps| && p(states[k].disk)
    requires AllWritten(StepEvents(states[k].disk, steps[k]), p)
    ensures p(states[k + 1].disk)
  {
    WrittenHolds(states[k], StepEvents(states[k].disk, steps[k]), p);
    assert states[k + 1] == ApplyAll(states[k], StepEvents(states[k].disk, steps[k]));
  }

  lemma {:induction false} UnwantedStep(s: Ledger, st: Step)
    requires !s.desired && !(st.Operate? && st.command == StartCommand)
    ensures AllWritten(StepEvents(s, st), Unwanted) && (st.Tick? ==> StartCall !in Calls(StepEvents(s, st)))
  {
    if st.Tick? {
      TickWrites(s, st.input, Unwanted);
      if StartCall in Calls(StepEvents(s, st)) { StartIsArmed(s, st.input, st.cut); }
    } else {
      CommandWants(s, st.command, st.arguments);
    }
    StepWritten(s, st, Unwanted);
  }

  /**
   * The operator's stop holds: from its first write on, in every run, no tick starts the module before a start command.
   */
  lemma {:induction false} StopHolds(states: seq<World>, clocks: seq<real>, steps: seq<Step>, m: nat, n: nat)
    requires Run(states, clocks, steps) && m < n < |states|
    requires steps[m].Operate? && steps[m].command == StopCommand && StepEvents(states[m].disk, steps[m]) != []
    requires n <= |steps| && Without(steps, m + 1, n, StartCommand)
    ensures !states[n].disk.desired && NoStarts(states, steps, m + 1, n) && RunWritten(states, steps, m, n, Unwanted)
  {
    var w, es := states[m], StepEvents(states[m].disk, steps[m]);
    CommandWants(w.disk, StopCommand, steps[m].arguments);
    StepWritten(w.disk, steps[m], Unwanted);
    assert es[0].Write?;
    WrittenHolds(Apply(w, es[0]), es[1..], Unwanted);
    assert states[m + 1] == ApplyAll(w, es);
    StaysUnwanted(states, clocks, steps, m + 1, n);
  }

  predicate EndsPause(st: Step) { st.Operate? && (st.command == Resume || st.command == ClearCircuit) }

  ghost predicate PauseLasts(steps: seq<Step>, m: nat, n: nat)
    requires m <= n <= |steps|
  {
    forall k | m <= k < n :: !EndsPause(steps[k])
  }

  /** So does a pause: until a resume or a cleared circuit nothing is started. */
  lemma {:induction false} StaysPaused(states: seq<World>, clocks: seq<real>, steps: seq<Step>, m: nat, n: nat)
    requires Run(states, clocks, steps) && m <= n < |states| && states[m].disk.paused
    requires n <= |steps| && PauseLasts(steps, m, n)
    ensures states[n].disk.paused && NoStarts(states, steps, m, n) && RunWritten(states, steps, m, n, Asleep)
    decreases n - m
  {
    if m < n {
      var k := n - 1;
      StaysPaused(states, clocks, steps, m, k);
      AsleepNext(states, clocks, steps, k);
    }
  }

  lemma {:induction false} AsleepNext(states: seq<World>, clocks: seq<real>, steps: seq<Step>, k: nat)
    requires Run(states, clocks, steps) && k < |steps| && states[k].disk.paused && !EndsPause(steps[k])
    ensures states[k + 1].disk.paused && AllWritten(StepEvents(states[k].disk, steps[k]), Asleep)
    ensures steps[k].Tick? ==> StartCall !in Calls(StepEvents(states[k].disk, steps[k]))
  {
    AsleepStep(states[k].disk, steps[k]);
    StepHolds(states, clocks, steps, k, Asleep);
  }

  lemma {:induction false} AsleepStep(s: Ledger, st: Step)
    requires s.paused && !EndsPause(st)
    ensures AllWritten(StepEvents(s, st), Asleep) && (st.Tick? ==> StartCall !in Calls(StepEvents(s, st)))
  {
    if st.Tick? {
      TickWrites(s, st.input, Asleep);
      if StartCall in Calls(StepEvents(s, st)) { StartIsArmed(s, st.input, st.cut); }
    } else {
      CommandPauses(s, st.command, st.arguments);
    }
    StepWritten(s, st, Asleep);
  }

  lemma {:induction false} PauseHolds(states: seq<World>, clocks: seq<real>, steps: seq<Step>, m: nat, n: nat)
    requires Run(states, clocks, steps) && m < n < |states| && states[m].disk.desired
    requires steps[m].Operate? && steps[m].command == Pause && StepEvents(states[m].disk, steps[m]) != []
    requires n <= |steps| && PauseLasts(steps, m + 1, n)
    ensures states[n].disk.paused && NoStarts(states, steps, m + 1, n) && RunWritten(states, steps, m, n, Asleep)
  {
    var w, es := states[m], StepEvents(states[m].disk, steps[m]);
    CommandPauses(w.disk, Pause, steps[m].arguments);
    StepWritten(w.disk, steps[m], Asleep);
    assert es[0].Write?;
    WrittenHolds(Apply(w, es[0]), es[1..], Asleep);
    assert states[m + 1] == ApplyAll(w, es);
    StaysPaused(states, clocks, steps, m + 1, n);
  }

  // ---- A tripped circuit ------------------------------------------------------------------------

  predicate Tripped(l: Ledger) { Truthy(l.circuit) }

  /** Only clearing it, or a failed snapshot without a text, can reopen a tripped circuit. */
  lemma {:induction false} StepTripped(s: Ledger, st: Step)
    requires Tripped(s) && !Reopens(st) && !(st.Operate? && st.command == ClearCircuit)
    ensures AllWritten(StepEvents(s, st), Tripped)
    ensures st.Tick? ==> Calls(StepEvents(s, st)) == []
  {
    if st.Tick? {
      var i, es := st.input, StepEvents(s, st);
      if i.snapshot.Some? { TrippedStays(s, i.snapshot.value, i.now); }
      assert |TickEvents(s, i)| == 1 && TickEvents(s, i)[0].Write?;
      assert |es| <= 1 && (es != [] ==> es[0] == TickEvents(s, i)[0]);
      assert forall k | 0 <= k < |es| :: es[k].Write?;
      NoCalls(es);
    } else {
      CommandTripped(s, st.command, st.arguments);
      StepWritten(s, st, Tripped);
    }
  }

  lemma {:induction false} CommandTripped(s: Ledger, c: Command, i: CommandInput)
    requires Tripped(s) && c != ClearCircuit
    ensures AllWritten(CommandEvents(s, c, i), Tripped)
  {
    match c
    case Pause => if s.desired { StopTripped(Pausing(s), i.stop); }
    case StopCommand => StopTripped(Stopping(s), i.stop);
    case _ =>
  }

  lemma {:induction false} StopTripped(q: Ledger, stop: Outcome)
    requires q.inflight.Some? && Tripped(q)
    ensures AllWritten([Write(q)] + StopPreserving(q, stop), Tripped)
  {
    CallWritesNothing(StopCall, stop, Tripped);
    var es := StopPreserving(q, stop);
    WrittenAdd(CallEvents(StopCall, stop), [es[|es| - 1]], Tripped);
    WrittenAdd([Write(q)], es, Tripped);
  }

  /** No step clears the circuit, and no snapshot fails without a text. */
  ghost predicate Undisturbed(steps: seq<Step>, m: nat, n: nat)
    requires m <= n <= |steps|
  {
    forall k | m <= k < n :: !Reopens(steps[k]) && !(steps[k].Operate? && steps[k].command == ClearCircuit)
  }

  /** No tick calls anything. */
  ghost predicate TicksIdle(states: seq<World>, steps: seq<Step>, m: nat, n: nat)
    requires m <= n <= |steps| <= |states|
  {
    forall k | m <= k < n && steps[k].Tick? :: Calls(StepEvents(states[k].disk, steps[k])) == []
  }

  /**
   * Fail closed: in every run, with crashes and any commands, once the circuit is tripped it stays tripped and no tick
   * calls anything, until it is cleared, or a snapshot fails without a text.
   */
  lemma {:induction false} StaysTripped(states: seq<World>, clocks: seq<real>, steps: seq<Step>, m: nat, n: nat)
    requires Run(states, clocks, steps) && m <= n < |states| && Tripped(states[m].disk)
    requires n <= |steps| && Undisturbed(steps, m, n)
    ensures Tripped(states[n].disk)
    ensures TicksIdle(states, steps, m, n)
    decreases n - m
  {
    if m < n {
      var k := n - 1;
      StaysTripped(states, clocks, steps, m, k);
      StepTripped(states[k].disk, steps[k]);
      StepHolds(states, clocks, steps, k, Tripped);
    }
  }

  /**
   * Whatever alarms the policy is final, a rapid device loss for one: after a tick that saw it and decided to wait, no
   * tick calls anything before the circuit is cleared.
   */
  lemma {:induction false} AlarmIsFinal(states: seq<World>, clocks: seq<real>, steps: seq<Step>, m: nat, n: nat)
    requires Run(states, clocks, steps) && m < n < |states| && steps[m].Tick? && steps[m].cut >= 1
    requires var i := steps[m].input;
      && i.snapshot.Some? && (Tripped(states[m].disk) || Alarming(states[m].disk, i.snapshot.value, i.now))
      && Decide(states[m].disk, i.snapshot.value, i.now).1 == Wait
    requires n <= |steps| && Undisturbed(steps, m + 1, n)
    ensures Tripped(states[n].disk)
    ensures TicksIdle(states, steps, m, n)
  {
    var w, i := states[m], steps[m].input;
    var o := i.snapshot.value;
    RunInv(states, clocks, steps, m);
    if Tripped(w.disk) { TrippedStays(w.disk, o, i.now); } else { TripsExactly(w.disk, o, i.now); }
    var d := Decide(w.disk, o, i.now).0;
    var es := StepEvents(w.disk, steps[m]);
    assert es == [Write(d)] && es[1..] == [] && !Write(d).Begin?;
    assert forall k | 0 <= k < |es| :: es[k] == Write(d);
    NoCalls(es);
    assert ApplyAll(w, es) == Apply(w, Write(d)) && Tripped(d);
    assert states[m + 1] == ApplyAll(w, es);
    StaysTripped(states, clocks, steps, m + 1, n);
  }

  // ---- What a tick leaves -----------------------------------------------------------------------

  /** The ledger of a tick that announced `action` for generation `g`: in flight, and for a start one attempt more. */
  predicate Announced(s: Ledger, action: Action, g: string, i: TickInput, l: Ledger) {
    && l.inflight == Some(Inflight(if action == Start then DoStart else DoStop, Some(g), None, None))
    && (if action == Start then l.attempts == s.attempts + [i.stamp] && l.lastAttempt == Some(i.last)
        else l.attempts == s.attempts && l.lastAttempt == s.lastAttempt)
    && l.bootId == s.bootId && l.desired == s.desired && l.paused == s.paused && l.managed == s.managed
  }

  /**
   * How the announced ledger `m` ends: managed after a start, unmanaged after a stop, in flight after a failed stop.
   */
  predicate Concluded(m: Ledger, action: Action, g: string, i: TickInput, l: Ledger) {
    && l.bootId == m.bootId && l.desired == m.desired && l.paused == m.paused
    && l.attempts == m.attempts && l.lastAttempt == m.lastAttempt
    && if action == Start then
         if i.start.failure.None? then l.managed == Some(g) && l.inflight == None && l.circuit == m.circuit
         else if i.stop.failure.None? then
           l.managed == None && l.inflight == None && l.circuit == Some(Said(i.start.failure.value))
         else
           && l.managed == m.managed && Tripped(l)
           && l.inflight.Some? && l.inflight.value.action == DoStart && l.inflight.value.generation == Some(g)
           && l.inflight.value.cleanupError.Some?
       else
         if i.stop.failure.None? then l.managed == None && l.inflight == None && l.circuit == m.circuit
         else l.managed == m.managed && l.inflight == m.inflight && l.circuit == Some(Said(i.stop.failure.value))
  }

  /**
   * In every run, a tick that decides to act leaves its announcement when cut short after writing it, and its
   * conclusion when it was not.
   */
  lemma {:induction false} TickOutcome(states: seq<World>, clocks: seq<real>, steps: seq<Step>, k: nat)
      returns (g: string, action: Action, m: Ledger)
    requires Run(states, clocks, steps) && k < |steps| && steps[k].Tick?
    requires Calls(StepEvents(states[k].disk, steps[k])) != []
    ensures var s, i, d := states[k].disk, steps[k].input, states[k + 1].disk;
      && i.snapshot.Some? && i.snapshot.value.device.Some? && g == i.snapshot.value.device.value.generation
      && action == Decide(s, i.snapshot.value, i.now).1 != Wait && Announced(s, action, g, i, m)
      && (action == Stop ==> Tripped(m))
      && if |StepEvents(s, steps[k])| < |TickEvents(s, i)| then d == m else Concluded(m, action, g, i, d)
  {
    var w, i := states[k], steps[k].input;
    var s, es := w.disk, StepEvents(w.disk, steps[k]);
    CallsPrefix(TickEvents(s, i), es);
    TickCalls(s, i);
    var o := i.snapshot.value;
    StopExactly(s, o, i.now);
    StartExactly(s, o, i.now);
    DecideKeeps(s, o, i.now);
    var d := Decide(s, o, i.now).0;
    action := Decide(s, o, i.now).1;
    g := o.device.value.generation;
    m := Ahead(d, action, g, i);
    TickShape(s, i, d, action, m);
    if |es| < 2 { NoCalls(es); }
    CutTrace(w, d, m, Middle(m, action, i), Last(m, action, g, i), |es|);
    assert es == TickEvents(s, i)[..|es|];
    assert states[k + 1] == ApplyAll(w, es);
  }

  // ---- Which generation is started ---------------------------------------------------------------

  predicate Begins(states: seq<World>, steps: seq<Step>, k: nat)
    requires k < |steps| <= |states|
  {
    steps[k].Tick? && StartCall in Calls(StepEvents(states[k].disk, steps[k]))
  }

  /** A tick without calls leaves what is managed alone. */
  lemma {:induction false} QuietTick(w: World, i: TickInput, cut: nat)
    requires Calls(StepEvents(w.disk, Tick(i, cut))) == []
    ensures ApplyAll(w, StepEvents(w.disk, Tick(i, cut))).disk.managed == w.disk.managed
  {
    var s, es := w.disk, StepEvents(w.disk, Tick(i, cut));
    var p: Ledger -> bool := (l: Ledger) => l.managed == s.managed;
    NothingBegun(es);
    if i.snapshot.Some? {
      var o := i.snapshot.value;
      var d, action := Decide(s, o, i.now).0, Decide(s, o, i.now).1;
      DecideKeeps(s, o, i.now);
      if action != Wait && o.device.Some? {
        TickShape(s, i, d, action, Ahead(d, action, o.device.value.generation, i));
        if |es| > 2 { assert es[2].Begin?; }
      }
    }
    WrittenHolds(w, es, p);
  }

  lemma {:induction false} NothingBegun(es: seq<Event>)
    requires Calls(es) == []
    ensures forall k | 0 <= k < |es| :: !es[k].Begin?
  {
    if es != [] {
      NothingBegun(es[1..]);
      forall k | 0 <= k < |es| ensures !es[k].Begin? {
        if k > 0 { assert es[k] == es[1..][k - 1]; }
      }
    }
  }

  lemma {:induction false} UncalledKeeps(states: seq<World>, clocks: seq<real>, steps: seq<Step>, m: nat, n: nat)
    requires Run(states, clocks, steps) && Ticks(steps, m, n) && Uncalled(states, steps, m, n)
    ensures states[n].disk.managed == states[m].disk.managed
    decreases n - m
  {
    if m < n {
      UncalledKeeps(states, clocks, steps, m, n - 1);
      QuietTick(states[n - 1], steps[n - 1].input, steps[n - 1].cut);
      assert states[n - 1 + 1] == ApplyAll(states[n - 1], StepEvents(states[n - 1].disk, steps[n - 1]));
    }
  }

  /** Between two starts in a run of ticks, with nothing begun in between. */
  lemma {:induction false} NextIsNew(states: seq<World>, clocks: seq<real>, steps: seq<Step>, j: nat, k: nat)
    requires Run(states, clocks, steps) && j < k && Ticks(steps, j, k + 1)
    requires Begins(states, steps, j) && Begins(states, steps, k) && Uncalled(states, steps, j + 1, k)
    requires steps[j].input.start.failure != Some("") && forall i | j < i <= k :: !Reopens(steps[i])
    ensures steps[k].input.snapshot.Some? && steps[k].input.snapshot.value.device.Some?
    ensures steps[j].input.snapshot.Some? && steps[j].input.snapshot.value.device.Some?
    ensures steps[k].input.snapshot.value.device.value.generation
            != steps[j].input.snapshot.value.device.value.generation
  {
    var s, i := states[j].disk, steps[j].input;
    assert steps[k] == Tick(steps[k].input, steps[k].cut) && steps[j] == Tick(i, steps[j].cut);
    var es := StepEvents(states[k].disk, steps[k]);
    StartIsArmed(states[k].disk, steps[k].input, steps[k].cut);
    NeverTheManaged(states[k].disk, steps[k].input);
    var g, action, m := TickOutcome(states, clocks, steps, j);
    StartIsArmed(s, i, steps[j].cut);
    TickCalls(s, i);
    if |StepEvents(s, steps[j])| < |TickEvents(s, i)| || !LeavesOpen(s, i) {
      OneFailure(states, clocks, steps, j, k + 1);
    } else {
      UncalledKeeps(states, clocks, steps, j + 1, k);
    }
  }

  // ---- How long a generation has been in sight ----------------------------------------------------

  /** A tick that reached its first write with the policy free to act, and saw generation `g`. */
  predicate Saw(states: seq<World>, steps: seq<Step>, k: nat, g: string)
    requires k < |steps| <= |states|
  {
    Looked(states, steps, k) && steps[k].input.snapshot.value.device.Some?
    && steps[k].input.snapshot.value.device.value.generation == g
  }

  predicate Looked(states: seq<World>, steps: seq<Step>, k: nat)
    requires k < |steps| <= |states|
  {
    steps[k].Tick? && steps[k].cut >= 1 && steps[k].input.snapshot.Some?
    && Armed(states[k].disk, steps[k].input.snapshot.value)
  }

  /** Every ledger written agrees with the decided one on the candidate. */
  lemma {:induction false} TickCandidate(w: World, i: TickInput, cut: nat)
    requires Validates(w.disk)
    ensures var d := ApplyAll(w, StepEvents(w.disk, Tick(i, cut))).disk;
      var e := if i.snapshot.Some? && cut >= 1 then Decide(w.disk, i.snapshot.value, i.now).0 else w.disk;
      d.candidate == e.candidate && d.candidateSince == e.candidateSince
  {
    var s, es := w.disk, StepEvents(w.disk, Tick(i, cut));
    if cut >= 1 {
      var e := if i.snapshot.Some? then Decide(s, i.snapshot.value, i.now).0 else s;
      var p: Ledger -> bool := (l: Ledger) => l.candidate == e.candidate && l.candidateSince == e.candidateSince;
      CandidateWritten(s, i, e, p);
      StepWritten(s, Tick(i, cut), p);
      assert es != [] && es[0].Write?;
      WrittenHolds(Apply(w, es[0]), es[1..], p);
    }
  }

  lemma {:induction false} CandidateWritten(s: Ledger, i: TickInput, e: Ledger, p: Ledger -> bool)
    requires e == if i.snapshot.Some? then Decide(s, i.snapshot.value, i.now).0 else s
    requires forall l: Ledger :: l.candidate == e.candidate && l.candidateSince == e.candidateSince ==> p(l)
    ensures AllWritten(TickEvents(s, i), p)
  {
    if i.snapshot.Some? {
      var o := i.snapshot.value;
      var action := Decide(s, o, i.now).1;
      if action != Wait && o.device.Some? {
        var g := o.device.value.generation;
        var m := Ahead(e, action, g, i);
        TickShape(s, i, e, action, m);
        WrittenAdd([Write(e), Write(m)] + Middle(m, action, i), [Write(Last(m, action, g, i))], p);
      }
    }
  }

  lemma {:induction false} CommandCandidate(s: Ledger, c: Command, i: CommandInput, p: Ledger -> bool)
    requires forall l: Ledger :: l.candidate == None ==> p(l)
    requires forall l: Ledger :: l.candidate == s.candidate && l.candidateSince == s.candidateSince ==> p(l)
    ensures AllWritten(CommandEvents(s, c, i), p)
  {
    match c
    case Pause => if s.desired { StopKeeps(Pausing(s), i.stop, p); }
    case StopCommand => StopKeeps(Stopping(s), i.stop, p);
    case _ =>
  }

  lemma {:induction false} StopKeeps(q: Ledger, stop: Outcome, p: Ledger -> bool)
    requires q.inflight.Some?
    requires forall l: Ledger :: l.candidate == q.candidate && l.candidateSince == q.candidateSince ==> p(l)
    ensures AllWritten([Write(q)] + StopPreserving(q, stop), p)
  {
    CallWritesNothing(StopCall, stop, p);
    var es := StopPreserving(q, stop);
    WrittenAdd(CallEvents(StopCall, stop), [es[|es| - 1]], p);
    WrittenAdd([Write(q)], es, p);
  }

  /** The candidate came into sight at the time recorded, and every look since has seen it. */
  ghost predicate InSight(states: seq<World>, steps: seq<Step>, j: nat, n: nat, g: string, since: real)
    requires n <= |steps| <= |states|
  {
    j < n && Saw(states, steps, j, g) && steps[j].input.now == since && SeenBetween(states, steps, j, n, g)
  }

  /** Every look from step `j` on, before step `n`, saw generation `g`. */
  ghost predicate SeenBetween(states: seq<World>, steps: seq<Step>, j: nat, n: nat, g: string)
    requires j <= n <= |steps| <= |states|
  {
    forall k | j <= k < n && Looked(states, steps, k) :: Saw(states, steps, k, g)
  }

  lemma {:induction false} CandidateInSight(states: seq<World>, clocks: seq<real>, steps: seq<Step>, n: nat)
      returns (j: nat)
    requires Run(states, clocks, steps) && n < |states| && states[n].disk.candidate.Some?
    ensures InSight(states, steps, j, n, states[n].disk.candidate.value, states[n].disk.candidateSince)
    decreases n
  {
    var k, g := n - 1, states[n].disk.candidate.value;
    var s, st, d := states[k].disk, steps[k], states[n].disk;
    assert states[k + 1] == ApplyAll(states[k], StepEvents(s, st));
    RunInv(states, clocks, steps, k);
    if Looked(states, steps, k) {
      LookedCandidate(states[k], st.input, st.cut, d);
      if s.candidate == d.candidate { j := CandidateInSight(states, clocks, steps, k); } else { j := k; }
    } else {
      SameCandidate(states[k], st, d);
      j := CandidateInSight(states, clocks, steps, k);
    }
  }

  lemma {:induction false} LookedCandidate(w: World, i: TickInput, cut: nat, d: Ledger)
    requires Validates(w.disk) && cut >= 1 && i.snapshot.Some? && Armed(w.disk, i.snapshot.value)
    requires d == ApplyAll(w, StepEvents(w.disk, Tick(i, cut))).disk
    ensures var o := i.snapshot.value;
      && d.candidate == (if o.device.Some? then Some(o.device.value.generation) else None)
      && (d.candidate.Some? ==> d.candidateSince == if w.disk.candidate == d.candidate then w.disk.candidateSince
        else i.now)
  {
    TickCandidate(w, i, cut);
    CandidateFollows(w.disk, i.snapshot.value, i.now);
  }

  /** Any other step keeps the candidate or forgets it. */
  lemma {:induction false} SameCandidate(w: World, st: Step, d: Ledger)
    requires Validates(w.disk) && d == ApplyAll(w, StepEvents(w.disk, st)).disk && d.candidate.Some?
    requires st.Tick? && st.cut >= 1 && st.input.snapshot.Some? ==> !Armed(w.disk, st.input.snapshot.value)
    ensures d.candidate == w.disk.candidate && d.candidateSince == w.disk.candidateSince
  {
    var s := w.disk;
    if st.Tick? {
      TickCandidate(w, st.input, st.cut);
      if st.input.snapshot.Some? { CandidateFollows(s, st.input.snapshot.value, st.input.now); }
    } else {
      var p: Ledger -> bool := (l: Ledger) =>
        l.candidate == None || (l.candidate == s.candidate && l.candidateSince == s.candidateSince);
      CommandCandidate(s, st.command, st.arguments, p);
      StepWritten(s, st, p);
      WrittenHolds(w, StepEvents(s, st), p);
    }
  }

  /**
   * In every run, a generation is started only when it has been in sight for fifteen seconds: some look that long
   * before saw it, and so did every look in between.
   */
  lemma {:induction false} StartIsStable(states: seq<World>, clocks: seq<real>, steps: seq<Step>, n: nat)
      returns (j: nat)
    requires Run(states, clocks, steps) && n < |steps| && Begins(states, steps, n)
    ensures steps[n].input.snapshot.Some? && steps[n].input.snapshot.value.device.Some?
    ensures j < n && steps[j].Tick? && steps[n].input.now - steps[j].input.now >= 15.0
    ensures Looked(states, steps, j)
    ensures SeenBetween(states, steps, j, n, steps[n].input.snapshot.value.device.value.generation)
  {
    var s, i := states[n].disk, steps[n].input;
    assert steps[n] == Tick(i, steps[n].cut);
    StartIsArmed(s, i, steps[n].cut);
    TickCalls(s, i);
    StartExactly(s, i.snapshot.value, i.now);
    j := CandidateInSight(states, clocks, steps, n);
  }
}
