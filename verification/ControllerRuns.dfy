/**
 * Runs of the controller with a crash allowed after any event of any tick or command (controller.py:67-125, 489-579,
 * 622-677).
 */
module ControllerRuns {
  import opened Wrappers
  import opened Policy
  import opened Controller

  /** A step is cut short by a crash after `cut` of its events. */
  datatype Step =
    | Tick(input: TickInput, cut: nat)
    | Operate(command: Command, arguments: CommandInput, cut: nat)

  function Whole(s: Ledger, st: Step): seq<Event> {
    match st
    case Tick(i, _) => TickEvents(s, i)
    case Operate(c, i, _) => CommandEvents(s, c, i)
  }

  /** A ledger that does not validate is refused, and nothing happens. */
  function StepEvents(s: Ledger, st: Step): seq<Event> {
    var es := if Validates(s) then Whole(s, st) else [];
    if st.cut <= |es| then es[..st.cut] else es
  }

  /** The monotone clock, and what the host guarantees of its calls. */
  ghost predicate Admitted(st: Step, before: real, after: real) {
    && 0.0 <= before <= after
    && match st
       case Tick(i, _) => Timely(i, before) && Hosted(i) && after == i.last
       case Operate(_, i, _) => Shaped(StopCall, i.stop)
  }

  ghost predicate Run(states: seq<World>, clocks: seq<real>, steps: seq<Step>) {
    && |states| == |clocks| == |steps| + 1
    && states[0] == World(FreshState(states[0].disk.bootId), 0, false) && clocks[0] >= 0.0
    && forall k | 0 <= k < |steps| ::
         && Admitted(steps[k], clocks[k], clocks[k + 1])
         && states[k + 1] == ApplyAll(states[k], StepEvents(states[k].disk, steps[k]))
  }

  lemma {:induction false} InvLater(w: World, before: real, after: real)
    requires Inv(w, before) && before <= after
    ensures Inv(w, after)
  {
  }

  lemma {:induction false} WholeSafe(w: World, st: Step, before: real, after: real)
    requires Inv(w, before) && Admitted(st, before, after)
    ensures AllSafe(w, Whole(w.disk, st), after)
  {
    InvLater(w, before, after);
    match st
    case Tick(i, _) => TickSafe(w, i, before);
    case Operate(c, i, _) => CommandSafe(w, c, i, after);
  }

  lemma {:induction false} StepInv(w: World, st: Step, before: real, after: real)
    requires Inv(w, before) && Admitted(st, before, after)
    ensures Inv(ApplyAll(w, StepEvents(w.disk, st)), after)
  {
    var es := Whole(w.disk, st);
    WholeSafe(w, st, before, after);
    InvLater(w, before, after);
    PrefixInv(w, es, if st.cut <= |es| then st.cut else |es|, after);
    assert es[..|es|] == es;
  }

  /**
   * Over every run of ticks, crashes and commands: the ledger validates, its attempts are at most six, two minutes
   * apart and any four span an hour, insertions since the ledger was new never exceed them, and a paused ledger with
   * nothing in flight follows a completed stop.
   */
  lemma {:induction false} RunInv(states: seq<World>, clocks: seq<real>, steps: seq<Step>, n: nat)
    requires Run(states, clocks, steps) && n < |states|
    ensures Inv(states[n], clocks[n])
  {
    if n > 0 {
      var k := n - 1;
      RunInv(states, clocks, steps, k);
      StepInv(states[k], steps[k], clocks[k], clocks[k + 1]);
      assert states[k + 1] == ApplyAll(states[k], StepEvents(states[k].disk, steps[k]));
    }
  }

  /** The world when event `e` of step `k` happens. */
  function At(states: seq<World>, steps: seq<Step>, k: nat, e: nat): World
    requires k < |steps| <= |states| && e < |StepEvents(states[k].disk, steps[k])|
  {
    ApplyAll(states[k], StepEvents(states[k].disk, steps[k])[..e])
  }

  lemma {:induction false} EventSafe(states: seq<World>, clocks: seq<real>, steps: seq<Step>, k: nat, e: nat)
    requires Run(states, clocks, steps) && k < |steps| && e < |StepEvents(states[k].disk, steps[k])|
    ensures Safe(At(states, steps, k, e), StepEvents(states[k].disk, steps[k])[e], clocks[k + 1])
  {
    var s := states[k].disk;
    RunInv(states, clocks, steps, k);
    WholeSafe(states[k], steps[k], clocks[k], clocks[k + 1]);
    SafeAt(states[k], Whole(s, steps[k]), e, clocks[k + 1]);
    assert StepEvents(s, steps[k])[..e] == Whole(s, steps[k])[..e];
  }

  /** In every run: at most six attempts, two minutes apart, any four spanning an hour, and no insertion beyond them. */
  lemma {:induction false} AttemptBudgets(states: seq<World>, clocks: seq<real>, steps: seq<Step>, n: nat, i: nat)
    requires Run(states, clocks, steps) && n < |states| && i < |states[n].disk.attempts|
    ensures var a := states[n].disk.attempts;
      && states[n].inserts <= |a| <= 6
      && (i + 1 < |a| ==> a[i + 1] - a[i] >= 120.0)
      && (i + 3 < |a| ==> a[i + 3] - a[i] >= 3600.0)
  {
    RunInv(states, clocks, steps, n);
    var j, k := i + 1, i + 3;
    assert Spaced(states[n].disk.attempts);
  }

  /**
   * In every run: a paused ledger with nothing in flight follows a stop completed since the pause, with no start since.
   */
  lemma {:induction false} PausedIsQuiesced(states: seq<World>, clocks: seq<real>, steps: seq<Step>, n: nat)
    requires Run(states, clocks, steps) && n < |states|
    requires states[n].disk.paused && states[n].disk.inflight.None?
    ensures states[n].quiesced
  {
    RunInv(states, clocks, steps, n);
  }

  /** Every ledger written would be read back: it validates, and it forgets no attempt. */
  lemma {:induction false} WritesValidate(states: seq<World>, clocks: seq<real>, steps: seq<Step>, k: nat, e: nat)
    requires Run(states, clocks, steps) && k < |steps| && e < |StepEvents(states[k].disk, steps[k])|
    requires StepEvents(states[k].disk, steps[k])[e].Write?
    ensures var l := StepEvents(states[k].disk, steps[k])[e].ledger;
      Validates(l) && At(states, steps, k, e).disk.attempts <= l.attempts
  {
    EventSafe(states, clocks, steps, k, e);
  }

  /** At every mutation the persisted ledger says that one is in flight. */
  lemma {:induction false} MutationInFlight(states: seq<World>, clocks: seq<real>, steps: seq<Step>, k: nat, e: nat)
    requires Run(states, clocks, steps) && k < |steps| && e < |StepEvents(states[k].disk, steps[k])|
    requires StepEvents(states[k].disk, steps[k])[e].Mutate?
    ensures At(states, steps, k, e).disk.inflight.Some?
  {
    EventSafe(states, clocks, steps, k, e);
  }

  /** Event `e` is a mutation, and nothing is written after it. */
  ghost predicate Unrecorded(es: seq<Event>, e: nat) {
    e < |es| && es[e].Mutate? && forall j | e < j < |es| :: !es[j].Write? && !es[j].Renew?
  }

  /**
   * A crash cannot hide a mutation: whatever step is cut short, wherever, if its outcome was not recorded then the
   * ledger that the step leaves on disk says that one is in flight.
   */
  lemma {:induction false} CrashConsistent(states: seq<World>, clocks: seq<real>, steps: seq<Step>, k: nat, e: nat)
    requires Run(states, clocks, steps) && k < |steps| && Unrecorded(StepEvents(states[k].disk, steps[k]), e)
    ensures states[k + 1].disk.inflight.Some?
  {
    MutationInFlight(states, clocks, steps, k, e);
    AfterLastWrite(states[k], StepEvents(states[k].disk, steps[k]), e);
    assert states[k + 1] == ApplyAll(states[k], StepEvents(states[k].disk, steps[k]));
  }

  lemma {:induction false} AfterLastWrite(w: World, es: seq<Event>, e: nat)
    requires Unrecorded(es, e)
    ensures ApplyAll(w, es).disk == ApplyAll(w, es[..e]).disk
  {
    var a, b := es[..e], es[e..];
    assert es == a + b;
    ApplyAdd(w, a, b);
    NoWrites(ApplyAll(w, a), b);
  }

  /**
   * Resume clears the sleep marker only when paused, with nothing in flight, after a completed stop and no start since.
   */
  lemma {:induction false} ResumeIsEarned(states: seq<World>, clocks: seq<real>, steps: seq<Step>, k: nat, e: nat)
    requires Run(states, clocks, steps) && k < |steps| && e < |StepEvents(states[k].disk, steps[k])|
    requires StepEvents(states[k].disk, steps[k])[e] == MarkerGone(Resume)
    ensures var w := At(states, steps, k, e); w.disk.paused && w.disk.inflight.None? && w.quiesced
  {
    EventSafe(states, clocks, steps, k, e);
  }

  /** A pause of a wanted module never clears the marker, whether it completes, fails or is interrupted. */
  lemma {:induction false} PauseKeepsMarker(s: Ledger, i: CommandInput, cut: nat, c: Command)
    requires s.desired
    ensures MarkerGone(c) !in StepEvents(s, Operate(Pause, i, cut))
  {
    var es := CommandEvents(s, Pause, i);
    forall e | e in es ensures !e.MarkerGone? {
      assert e in CallEvents(StopCall, i.stop) ==> !e.MarkerGone?;
    }
  }

  // ---- One failure is final ---------------------------------------------------------------------

  /** The ledger stops every later tick. */
  predicate Closed(s: Ledger) { s.inflight.Some? || Truthy(s.circuit) }

  /** The host calls begun in a trace. */
  function Calls(es: seq<Event>): seq<Call> {
    if es == [] then [] else (if es[0].Begin? then [es[0].call] else []) + Calls(es[1..])
  }

  lemma {:induction false} CallsAdd(a: seq<Event>, b: seq<Event>)
    ensures Calls(a + b) == Calls(a) + Calls(b)
  {
    if a == [] {
      assert a + b == b;
    } else {
      var h := if a[0].Begin? then [a[0].call] else [];
      assert (a + b)[1..] == a[1..] + b && (a + b)[0] == a[0];
      CallsAdd(a[1..], b);
      assert h + (Calls(a[1..]) + Calls(b)) == h + Calls(a[1..]) + Calls(b);
    }
  }

  lemma {:induction false} NoCalls(es: seq<Event>)
    requires forall k | 0 <= k < |es| :: !es[k].Begin?
    ensures Calls(es) == []
  {
    if es != [] { NoCalls(es[1..]); }
  }

  lemma {:induction false} CallsOfCall(c: Call, o: Outcome, l: Ledger)
    ensures Calls(CallEvents(c, o)) == [c] && Calls(CallEvents(c, o) + [Write(l)]) == [c]
  {
    var tail := Mutations(o.did) + if o.failure.None? then [Completed(c)] else [];
    assert CallEvents(c, o) == [Begin(c)] + tail;
    NoCalls(tail);
    CallsAdd([Begin(c)], tail);
    assert [Begin(c)][1..] == [] && Calls([Begin(c)]) == [c];
    NoCalls([Write(l)]);
    CallsAdd(CallEvents(c, o), [Write(l)]);
  }

  /** A tick makes no call, one stop, or one start, and after a failed start exactly one stop. */
  lemma {:induction false} TickCalls(s: Ledger, i: TickInput)
    ensures Calls(TickEvents(s, i)) ==
      if i.snapshot.None? then []
      else if Decide(s, i.snapshot.value, i.now).1 == Start then
        (if i.start.failure.None? then [StartCall] else [StartCall, StopCall])
      else if Decide(s, i.snapshot.value, i.now).1 == Stop then [StopCall]
      else []
  {
    if i.snapshot.None? {
      NoCalls(TickEvents(s, i));
    } else {
      var o := i.snapshot.value;
      var d, action := Decide(s, o, i.now).0, Decide(s, o, i.now).1;
      StartExactly(s, o, i.now);
      StopExactly(s, o, i.now);
      if action == Wait {
        NoCalls(TickEvents(s, i));
      } else {
        var g := o.device.value.generation;
        var m := Ahead(d, action, g, i);
        NoCalls([Write(d), Write(m)]);
        CallsAdd([Write(d), Write(m)], if action == Start then StartEvents(m, g, i) else StopEvents(m, i));
        ActionCalls(m, g, i);
      }
    }
  }

  lemma {:induction false} ActionCalls(m: Ledger, g: string, i: TickInput)
    requires m.inflight.Some?
    ensures Calls(StartEvents(m, g, i)) == if i.start.failure.None? then [StartCall] else [StartCall, StopCall]
    ensures Calls(StopEvents(m, i)) == [StopCall]
  {
    CallsOfCall(StopCall, i.stop, if i.stop.failure.None? then m.(managed := None, inflight := None)
      else Failed(m, i.stop.failure.value));
    if i.start.failure.None? {
      CallsOfCall(StartCall, i.start, m.(managed := Some(g), reason := Started, inflight := None));
    } else {
      var l := CleanedUp(m, i.start.failure.value, i.stop.failure);
      CallsOfCall(StartCall, i.start, l);
      CallsOfCall(StopCall, i.stop, l);
      var a, b := CallEvents(StartCall, i.start), CallEvents(StopCall, i.stop);
      CallsAdd(a, b + [Write(l)]);
      Assoc(a, b, [Write(l)]);
    }
  }

  /** No tick starts the generation that is already recorded as managed, or outside the policy's conditions. */
  lemma {:induction false} NeverTheManaged(s: Ledger, i: TickInput)
    requires StartCall in Calls(TickEvents(s, i))
    ensures i.snapshot.Some? && i.snapshot.value.device.Some?
    ensures s.managed != Some(i.snapshot.value.device.value.generation) && Armed(s, i.snapshot.value)
      && !Spent(s, i.now)
  {
    TickCalls(s, i);
    StartExactly(s, i.snapshot.value, i.now);
  }

  /** A tick that reaches its write after a failed snapshot whose error has no text. */
  predicate Reopens(st: Step) { st.Tick? && st.cut >= 1 && st.input.snapshot.None? && st.input.error == "" }

  /**
   * On a closed ledger a tick calls nothing, and what is in flight stays so. It leaves the ledger closed exactly unless
   * only a circuit closed it and the snapshot fails without a text.
   */
  lemma {:induction false} ClosedTickExactly(w: World, st: Step)
    requires Closed(w.disk) && Validates(w.disk) && st.Tick?
    ensures var es := StepEvents(w.disk, st);
      && Calls(es) == [] && ApplyAll(w, es).disk.inflight == w.disk.inflight
      && (Closed(ApplyAll(w, es).disk) <==> w.disk.inflight.Some? || !Reopens(st))
  {
    var s, i, es := w.disk, st.input, StepEvents(w.disk, st);
    if i.snapshot.Some? { DecideKeeps(s, i.snapshot.value, i.now); }
    assert |TickEvents(s, i)| == 1 && TickEvents(s, i)[0].Write?;
    NoCalls(es);
    if es != [] { assert es[1..] == []; }
  }

  /** The steps from `m` to `n` are ticks. */
  ghost predicate Ticks(steps: seq<Step>, m: nat, n: nat) {
    m <= n <= |steps| && forall k | m <= k < n :: steps[k].Tick?
  }

  /** Nothing is called from step `m` to step `n`. */
  ghost predicate Uncalled(states: seq<World>, steps: seq<Step>, m: nat, n: nat)
    requires m <= n <= |steps| <= |states|
  {
    forall k | m <= k < n :: Calls(StepEvents(states[k].disk, steps[k])) == []
  }

  ghost predicate ClosedFrom(states: seq<World>, m: nat, n: nat) {
    m <= n < |states| && forall k | m <= k <= n :: Closed(states[k].disk)
  }

  /**
   * In every run of ticks from a closed ledger: it stays closed, and then nothing is ever called, exactly when a
   * mutation is in flight or no snapshot fails without a text.
   */
  lemma {:induction false} ClosedForever(states: seq<World>, clocks: seq<real>, steps: seq<Step>, m: nat, n: nat)
    requires Run(states, clocks, steps) && Ticks(steps, m, n) && Closed(states[m].disk)
    ensures ClosedFrom(states, m, n) <==>
      states[m].disk.inflight.Some? || forall k | m <= k < n :: !Reopens(steps[k])
    ensures ClosedFrom(states, m, n) ==>
      Uncalled(states, steps, m, n) && states[n].disk.inflight == states[m].disk.inflight
    decreases n - m
  {
    if m < n {
      var k := n - 1;
      ClosedForever(states, clocks, steps, m, k);
      if ClosedFrom(states, m, k) {
        RunInv(states, clocks, steps, k);
        ClosedTickExactly(states[k], steps[k]);
        assert states[k + 1] == ApplyAll(states[k], StepEvents(states[k].disk, steps[k]));
      }
    }
  }

  lemma {:induction false} NoWrites(w: World, es: seq<Event>)
    requires forall k | 0 <= k < |es| :: !es[k].Write? && !es[k].Renew?
    ensures ApplyAll(w, es).disk == w.disk
    decreases |es|
  {
    if es != [] { NoWrites(Apply(w, es[0]), es[1..]); }
  }

  lemma {:induction false} ApplyAdd(w: World, a: seq<Event>, b: seq<Event>)
    ensures ApplyAll(w, a + b) == ApplyAll(ApplyAll(w, a), b)
    decreases |a|
  {
    if a == [] {
      assert a + b == b;
    } else {
      assert (a + b)[1..] == a[1..] + b && (a + b)[0] == a[0];
      ApplyAdd(Apply(w, a[0]), a[1..], b);
    }
  }

  /** Two writes, calls, and a last write: the disk after a crash anywhere. */
  lemma {:induction false} CutTrace(w: World, d: Ledger, m: Ledger, b: seq<Event>, f: Ledger, n: nat)
    requires 2 <= n <= |b| + 3 && forall k | 0 <= k < |b| :: !b[k].Write? && !b[k].Renew?
    ensures ApplyAll(w, ([Write(d), Write(m)] + b + [Write(f)])[..n]).disk == if n == |b| + 3 then f else m
  {
    var a, whole := [Write(d), Write(m)], [Write(d), Write(m)] + b + [Write(f)];
    var w2 := ApplyAll(w, a);
    assert a[1..] == [Write(m)] && [Write(m)][1..] == [];
    assert ApplyAll(w, a) == ApplyAll(Apply(w, Write(d)), [Write(m)]) == Apply(Apply(w, Write(d)), Write(m));
    if n == |b| + 3 {
      assert whole[..n] == a + b + [Write(f)];
      ApplyAdd(w, a, b);
      ApplyAdd(w, a + b, [Write(f)]);
      assert [Write(f)][1..] == [];
    } else {
      assert whole[..n] == a + b[..n - 2];
      ApplyAdd(w, a, b[..n - 2]);
      NoWrites(w2, b[..n - 2]);
    }
  }

  predicate Starts(s: Ledger, i: TickInput) {
    i.snapshot.Some? && Decide(s, i.snapshot.value, i.now).1 == Start
  }

  /**
   * A whole tick with calls that leaves the ledger open: a start that succeeded, or one that failed without a text and
   * was cleaned up.
   */
  predicate LeavesOpen(s: Ledger, i: TickInput) {
    Starts(s, i) && (i.start.failure.Some? ==> i.start.failure.value == "" && i.stop.failure.None?)
  }

  /** A failed start closes the ledger exactly when its error has a text or its cleanup failed. */
  lemma {:induction false} FailedStartCloses(m: Ledger, text: string, cleanup: Option<string>)
    requires m.inflight.Some?
    ensures Closed(CleanedUp(m, text, cleanup)) <==> text != "" || cleanup.Some?
  {
    var l := CleanedUp(m, text, cleanup);
    if cleanup.None? {
      assert l.circuit == Some(Said(text)) && l.inflight.None?;
      assert Truthy(l.circuit) <==> Said(text).text != "";
      assert Said(text).text == text;
    } else {
      assert l.inflight.Some?;
    }
  }

  /**
   * A tick that began a call leaves the ledger closed exactly when it was cut short or is not one that leaves it open.
   */
  lemma {:induction false} TickCloses(w: World, i: TickInput, cut: nat)
    requires Calls(StepEvents(w.disk, Tick(i, cut))) != []
    ensures Closed(ApplyAll(w, StepEvents(w.disk, Tick(i, cut))).disk) <==>
      cut < |TickEvents(w.disk, i)| || !LeavesOpen(w.disk, i)
  {
    var s := w.disk;
    if Closed(s) { ClosedTickExactly(w, Tick(i, cut)); }
    CallsPrefix(TickEvents(s, i), StepEvents(s, Tick(i, cut)));
    TickCalls(s, i);
    var o := i.snapshot.value;
    StopExactly(s, o, i.now);
    StartExactly(s, o, i.now);
    ActionCloses(w, i, StepEvents(s, Tick(i, cut)), Decide(s, o, i.now).0, Decide(s, o, i.now).1);
  }

  lemma {:induction false} ActionCloses(w: World, i: TickInput, es: seq<Event>, d: Ledger, action: Action)
    requires !Closed(w.disk) && i.snapshot.Some? && i.snapshot.value.device.Some? && action != Wait
    requires Decide(w.disk, i.snapshot.value, i.now) == (d, action)
    requires es <= TickEvents(w.disk, i) && Calls(es) != []
    ensures Closed(ApplyAll(w, es).disk) <==> |es| < |TickEvents(w.disk, i)| || !LeavesOpen(w.disk, i)
  {
    var g := i.snapshot.value.device.value.generation;
    var m := Ahead(d, action, g, i);
    TickShape(w.disk, i, d, action, m);
    LastCloses(w.disk, i, d, action, m);
    if |es| < 2 { NoCalls(es); }
    CutTrace(w, d, m, Middle(m, action, i), Last(m, action, g, i), |es|);
    assert es == TickEvents(w.disk, i)[..|es|];
  }

  /** Whether the last ledger of a tick with calls is closed. */
  lemma {:induction false} LastCloses(s: Ledger, i: TickInput, d: Ledger, action: Action, m: Ledger)
    requires !Closed(s) && i.snapshot.Some? && i.snapshot.value.device.Some? && action != Wait
    requires Decide(s, i.snapshot.value, i.now) == (d, action)
    requires m == Ahead(d, action, i.snapshot.value.device.value.generation, i)
    ensures Closed(m)
    ensures Closed(Last(m, action, i.snapshot.value.device.value.generation, i)) <==> !LeavesOpen(s, i)
  {
    StopExactly(s, i.snapshot.value, i.now);
    StartExactly(s, i.snapshot.value, i.now);
    if action == Start && i.start.failure.Some? { FailedStartCloses(m, i.start.failure.value, i.stop.failure); }
  }

  /** The calls of a tick, whole or cut short. */
  predicate OneAction(calls: seq<Call>) {
    calls == [StopCall] || calls == [StartCall] || calls == [StartCall, StopCall]
  }

  /**
   * One failure is final: in every run of ticks, after a tick that began a call and was cut short, failed or tripped
   * the circuit, having made at most one start and then one stop, no later tick calls anything. Excepted are only an
   * error without a text of that very start, and, with nothing in flight, of a later snapshot.
   */
  lemma {:induction false} OneFailure(states: seq<World>, clocks: seq<real>, steps: seq<Step>, k: nat, n: nat)
    requires Run(states, clocks, steps) && k < n && Ticks(steps, k, n)
    requires var es := StepEvents(states[k].disk, steps[k]);
      Calls(es) != [] && (|es| < |TickEvents(states[k].disk, steps[k].input)|
        || !LeavesOpen(states[k].disk, steps[k].input))
    requires states[k + 1].disk.inflight.Some? || forall j | k < j < n :: !Reopens(steps[j])
    ensures OneAction(Calls(StepEvents(states[k].disk, steps[k]))) && Uncalled(states, steps, k + 1, n)
  {
    var w, st := states[k], steps[k];
    assert states[k + 1] == ApplyAll(w, StepEvents(w.disk, st));
    TickCloses(w, st.input, st.cut);
    ClosedForever(states, clocks, steps, k + 1, n);
    TickCalls(w.disk, st.input);
    CallsPrefix(TickEvents(w.disk, st.input), StepEvents(w.disk, st));
  }

  /** A prefix of a trace begins a prefix of its calls. */
  lemma {:induction false} CallsPrefix(all: seq<Event>, es: seq<Event>)
    requires es <= all
    ensures Calls(es) <= Calls(all)
  {
    assert all == es + all[|es|..];
    CallsAdd(es, all[|es|..]);
  }

  function Middle(m: Ledger, action: Action, i: TickInput): seq<Event> {
    if action == Start then
      CallEvents(StartCall, i.start) + if i.start.failure.None? then [] else CallEvents(StopCall, i.stop)
    else CallEvents(StopCall, i.stop)
  }

  function Last(m: Ledger, action: Action, g: string, i: TickInput): Ledger
    requires m.inflight.Some?
  {
    if action == Start then
      if i.start.failure.None? then m.(managed := Some(g), reason := Started, inflight := None)
      else CleanedUp(m, i.start.failure.value, i.stop.failure)
    else if i.stop.failure.None? then m.(managed := None, inflight := None)
    else Failed(m, i.stop.failure.value)
  }

  lemma {:induction false} TickShape(s: Ledger, i: TickInput, d: Ledger, action: Action, m: Ledger)
    requires i.snapshot.Some? && i.snapshot.value.device.Some? && action != Wait
    requires Decide(s, i.snapshot.value, i.now) == (d, action)
    requires m == Ahead(d, action, i.snapshot.value.device.value.generation, i)
    ensures var b, f := Middle(m, action, i), Last(m, action, i.snapshot.value.device.value.generation, i);
      TickEvents(s, i) == [Write(d), Write(m)] + b + [Write(f)]
    ensures forall k | 0 <= k < |Middle(m, action, i)| ::
      !Middle(m, action, i)[k].Write? && !Middle(m, action, i)[k].Renew?
  {
    var g := i.snapshot.value.device.value.generation;
    var b, f := Middle(m, action, i), Last(m, action, g, i);
    assert CallEvents(StartCall, i.start) + [] == CallEvents(StartCall, i.start);
    assert (if action == Start then StartEvents(m, g, i) else StopEvents(m, i)) == b + [Write(f)];
    Assoc([Write(d), Write(m)], b, [Write(f)]);
  }

  /** Without a text, a failed snapshot reopens a circuit that a fault had closed. */
  lemma {:induction false} EmptyErrorReopens(boot: string, st: Step)
    requires Reopens(st)
    ensures var s := FreshState(boot).(desired := true, circuit := Some(TransportFault));
      Closed(s) && !Closed(ApplyAll(World(s, 0, false), StepEvents(s, st)).disk)
  {
    ClosedTickExactly(World(FreshState(boot).(desired := true, circuit := Some(TransportFault)), 0, false), st);
  }
}
