/**
 * The write-ahead controller: `tick`, `operate` and `stop_preserving_failure` (controller.py:535-579, 622-677), as the
 * events they leave behind, so that a crash is any prefix of them.
 */
module Controller {
  import opened Wrappers
  import opened Policy

  datatype Mutation = Unbind | Remove | Insert

  datatype Call = StartCall | StopCall

  datatype Command = Pause | Resume | StopCommand | ClearCircuit | StartCommand

  datatype Event =
    | Write(ledger: Ledger)
    | Renew(ledger: Ledger)
    | Begin(call: Call) | Mutate(mutation: Mutation) | Completed(call: Call)
    | MarkerGone(command: Command)

  /** What a host call did before it returned or raised; the host is an adversary. */
  datatype Outcome = Outcome(did: seq<Mutation>, failure: Option<string>)

  /** At most one unbind, then at most one removal. */
  predicate StopShape(did: seq<Mutation>) {
    did == [] || did == [Unbind] || did == [Remove] || did == [Unbind, Remove]
  }

  /** A start may first stop an old module; it inserts at most once, last. */
  predicate StartShape(did: seq<Mutation>) {
    StopShape(did) || (did != [] && did[|did| - 1] == Insert && StopShape(did[..|did| - 1]))
  }

  predicate Shaped(c: Call, o: Outcome) { if c.StartCall? then StartShape(o.did) else StopShape(o.did) }

  function Mutations(did: seq<Mutation>): (es: seq<Event>)
    ensures |es| == |did|
  {
    seq(|did|, i requires 0 <= i < |did| => Mutate(did[i]))
  }

  function CallEvents(c: Call, o: Outcome): seq<Event> {
    [Begin(c)] + Mutations(o.did) + if o.failure.None? then [Completed(c)] else []
  }

  function Cut(text: string): string { if |text| <= 2048 then text else text[..2048] }

  // ---- One tick ---------------------------------------------------------------------------

  /** A snapshot or the text of the error that replaced it; three clock readings; what the host calls would do. */
  datatype TickInput = TickInput(snapshot: Option<Observation>, error: string, now: real, stamp: real, last: real,
                                 start: Outcome, stop: Outcome)

  /** The ledger written ahead of the mutation. */
  function Ahead(d: Ledger, action: Action, generation: string, i: TickInput): Ledger {
    if action == Start then
      d.(inflight := Some(Inflight(DoStart, Some(generation), None, None)),
         attempts := d.attempts + [i.stamp], lastAttempt := Some(i.last))
    else d.(inflight := Some(Inflight(DoStop, Some(generation), None, None)))
  }

  function Failed(m: Ledger, text: string): Ledger { m.(circuit := Some(Said(text)), reason := Said(text)) }

  /** The ledger after a failed start and its cleanup. */
  function CleanedUp(m: Ledger, text: string, cleanup: Option<string>): Ledger
    requires m.inflight.Some?
  {
    var f := Failed(m, text);
    if cleanup.None? then f.(managed := None, inflight := None)
    else
      var both := CleanupFailed(Said(text), Cut(cleanup.value));
      f.(inflight := Some(m.inflight.value.(cleanupError := Some(Cut(cleanup.value)))), circuit := Some(both),
         reason := both)
  }

  function StartEvents(m: Ledger, generation: string, i: TickInput): seq<Event>
    requires m.inflight.Some?
  {
    if i.start.failure.None? then
      CallEvents(StartCall, i.start) + [Write(m.(managed := Some(generation), reason := Started, inflight := None))]
    else
      CallEvents(StartCall, i.start) + CallEvents(StopCall, i.stop)
      + [Write(CleanedUp(m, i.start.failure.value, i.stop.failure))]
  }

  function StopEvents(m: Ledger, i: TickInput): seq<Event> {
    CallEvents(StopCall, i.stop)
    + [Write(if i.stop.failure.None? then m.(managed := None, inflight := None) else Failed(m, i.stop.failure.value))]
  }

  function TickEvents(s: Ledger, i: TickInput): seq<Event> {
    if i.snapshot.None? then [Write(Failed(s, i.error))]
    else
      var (d, action) := Decide(s, i.snapshot.value, i.now);
      if action == Wait || i.snapshot.value.device.None? then [Write(d)]
      else
        var g := i.snapshot.value.device.value.generation;
        var m := Ahead(d, action, g, i);
        [Write(d), Write(m)] + if action == Start then StartEvents(m, g, i) else StopEvents(m, i)
  }

  // ---- One operator command ------------------------------------------------------------------

  datatype CommandInput = CommandInput(stop: Outcome, markerPresent: bool, markerTrusted: bool, device: Option<Device>,
                                       snapshotFails: bool, artifactApproved: bool)

  function StopPreserving(p: Ledger, stop: Outcome): seq<Event>
    requires p.inflight.Some?
  {
    CallEvents(StopCall, stop)
    + [Write(if stop.failure.None? then p.(managed := None, inflight := None)
             else
               var message := CommandFailed(Cut(stop.failure.value));
               p.(circuit := Some(message), reason := message,
                  inflight := Some(p.inflight.value.(error := Some(Cut(stop.failure.value))))))]
  }

  function CommandEvents(s: Ledger, c: Command, i: CommandInput): seq<Event> {
    match c
    case Pause =>
      if !s.desired then (if i.markerTrusted then [MarkerGone(Pause)] else [])
      else
        var p := s.(paused := true, inflight := Some(Inflight(SleepStop, None, None, None)));
        [Write(p)] + StopPreserving(p, i.stop)
    case Resume =>
      if !s.paused || s.inflight.Some? then []
      else if i.markerPresent && !i.markerTrusted then []
      else (if i.markerPresent then [MarkerGone(Resume)] else []) + [Write(s.(paused := false, candidate := None))]
    case StopCommand =>
      var p := s.(desired := false, inflight := Some(Inflight(DoStop, None, None, None)));
      [Write(p)] + StopPreserving(p, i.stop)
    case ClearCircuit =>
      if i.snapshotFails || (i.device.Some? && i.device.value.driver != Unbound) then []
      else if i.markerPresent && !i.markerTrusted then []
      else (if i.markerPresent then [MarkerGone(ClearCircuit)] else []) + [Renew(FreshState(s.bootId))]
    case StartCommand => if i.artifactApproved then [Write(s.(desired := true))] else []
  }

  // ---- What events do to the world --------------------------------------------------------------

  /**
   * The persisted ledger; insertions since it was new; and whether a module stop has completed since the ledger became
   * paused, with no start begun since.
   */
  datatype World = World(disk: Ledger, inserts: nat, quiesced: bool)

  function Apply(w: World, e: Event): World {
    match e
    case Write(l) => w.(disk := l, quiesced := w.quiesced && (l.paused ==> w.disk.paused))
    case Renew(l) => World(l, 0, false)
    case Begin(c) => if c == StartCall then w.(quiesced := false) else w
    case Mutate(m) => if m == Insert then w.(inserts := w.inserts + 1) else w
    case Completed(c) => if c == StopCall then w.(quiesced := true) else w
    case MarkerGone(_) => w
  }

  function ApplyAll(w: World, es: seq<Event>): World
    decreases |es|
  {
    if es == [] then w else ApplyAll(Apply(w, es[0]), es[1..])
  }

  /** The ledger invariant at clock reading `clock`. */
  ghost predicate Inv(w: World, clock: real) {
    && Validates(w.disk) && Budgeted(w.disk, clock)
    && w.inserts <= |w.disk.attempts|
    && (w.disk.paused && w.disk.inflight.None? ==> w.quiesced)
  }

  /**
   * What each event must find: a mutation is recorded as in flight, an insertion as an attempt; a ledger is valid,
   * keeps all attempts and is paused without a mutation in flight only when quiesced; resume clears the marker only
   * then.
   */
  ghost predicate Safe(w: World, e: Event, clock: real) {
    match e
    case Write(l) =>
      && Validates(l) && Budgeted(l, clock) && w.disk.attempts <= l.attempts
      && (l.paused && l.inflight.None? ==> Apply(w, e).quiesced)
    case Renew(l) => l == FreshState(w.disk.bootId)
    case Begin(c) => w.disk.inflight.Some?
    case Mutate(m) => w.disk.inflight.Some? && (m == Insert ==> w.inserts < |w.disk.attempts|)
    case Completed(_) => true
    case MarkerGone(c) => c == Resume ==> w.disk.paused && w.disk.inflight.None? && w.quiesced
  }

  ghost predicate AllSafe(w: World, es: seq<Event>, clock: real)
    decreases |es|
  {
    es == [] || (Safe(w, es[0], clock) && AllSafe(Apply(w, es[0]), es[1..], clock))
  }

  lemma {:induction false} ApplyInv(w: World, e: Event, clock: real)
    requires Inv(w, clock) && Safe(w, e, clock) && clock >= 0.0
    ensures Inv(Apply(w, e), clock)
  {
  }

  /** A crash after any event leaves the invariant. */
  lemma {:induction false} PrefixInv(w: World, es: seq<Event>, n: nat, clock: real)
    requires Inv(w, clock) && AllSafe(w, es, clock) && n <= |es| && clock >= 0.0
    ensures Inv(ApplyAll(w, es[..n]), clock)
    decreases n
  {
    if n > 0 {
      ApplyInv(w, es[0], clock);
      PrefixInv(Apply(w, es[0]), es[1..], n - 1, clock);
      assert es[..n][1..] == es[1..][..n - 1];
    }
  }

  /** At each event of a safe trace, the event is safe in the world its predecessors left. */
  lemma {:induction false} SafeAt(w: World, es: seq<Event>, n: nat, clock: real)
    requires AllSafe(w, es, clock) && n < |es|
    ensures Safe(ApplyAll(w, es[..n]), es[n], clock)
    decreases n
  {
    if n > 0 {
      SafeAt(Apply(w, es[0]), es[1..], n - 1, clock);
      assert es[..n][1..] == es[1..][..n - 1];
    }
  }

  lemma {:induction false} SafeAdd(w: World, a: seq<Event>, b: seq<Event>, clock: real)
    requires AllSafe(w, a, clock) && AllSafe(ApplyAll(w, a), b, clock)
    ensures AllSafe(w, a + b, clock) && ApplyAll(w, a + b) == ApplyAll(ApplyAll(w, a), b)
    decreases |a|
  {
    if a == [] {
      assert a + b == b;
    } else {
      assert (a + b)[1..] == a[1..] + b;
      SafeAdd(Apply(w, a[0]), a[1..], b, clock);
    }
  }

  // ---- Ticks and commands are safe -------------------------------------------------------------

  predicate Inserts(did: seq<Mutation>) { did != [] && did[|did| - 1] == Insert }

  /** Insertion comes last if at all, and only where an attempt pays for it. */
  lemma {:induction false} MutationsSafe(w: World, did: seq<Mutation>, clock: real)
    requires w.disk.inflight.Some?
    requires forall k | 0 <= k < |did| :: did[k] == Insert ==> k == |did| - 1 && w.inserts < |w.disk.attempts|
    ensures AllSafe(w, Mutations(did), clock)
    ensures ApplyAll(w, Mutations(did)) == w.(inserts := w.inserts + if Inserts(did) then 1 else 0)
    decreases |did|
  {
    if did != [] {
      assert Mutations(did)[1..] == Mutations(did[1..]);
      MutationsSafe(Apply(w, Mutate(did[0])), did[1..], clock);
    }
  }

  /** The world after a host call. */
  function After(w: World, c: Call, o: Outcome): World {
    w.(inserts := w.inserts + (if Inserts(o.did) then 1 else 0),
       quiesced := if c == StartCall then false else w.quiesced || o.failure.None?)
  }

  lemma {:induction false} CallSafe(w: World, c: Call, o: Outcome, clock: real)
    requires w.disk.inflight.Some? && Shaped(c, o) && (c == StartCall ==> w.inserts < |w.disk.attempts|)
    ensures AllSafe(w, CallEvents(c, o), clock) && ApplyAll(w, CallEvents(c, o)) == After(w, c, o)
  {
    var w1 := Apply(w, Begin(c));
    var tail := if o.failure.None? then [Completed(c)] else [];
    Single(w, Begin(c), clock);
    MutationsSafe(w1, o.did, clock);
    SafeAdd(w, [Begin(c)], Mutations(o.did), clock);
    if o.failure.None? { Single(ApplyAll(w1, Mutations(o.did)), Completed(c), clock); }
    SafeAdd(w, [Begin(c)] + Mutations(o.did), tail, clock);
  }

  lemma {:induction false} Single(w: World, e: Event, clock: real)
    requires Safe(w, e, clock)
    ensures AllSafe(w, [e], clock) && ApplyAll(w, [e]) == Apply(w, e)
  {
    assert [e][1..] == [];
  }

  /** A call and the write of its outcome. */
  lemma {:induction false} CallThenWrite(w: World, c: Call, o: Outcome, l: Ledger, clock: real)
    requires w.disk.inflight.Some? && Shaped(c, o) && (c == StartCall ==> w.inserts < |w.disk.attempts|)
    requires Safe(After(w, c, o), Write(l), clock)
    ensures AllSafe(w, CallEvents(c, o) + [Write(l)], clock)
  {
    CallSafe(w, c, o, clock);
    Single(After(w, c, o), Write(l), clock);
    SafeAdd(w, CallEvents(c, o), [Write(l)], clock);
  }

  lemma {:induction false} StartSafe(w: World, generation: string, i: TickInput, clock: real)
    requires Inv(w, clock) && w.disk.inflight.Some? && !w.disk.paused && w.inserts < |w.disk.attempts|
    requires Shaped(StartCall, i.start) && Shaped(StopCall, i.stop)
    ensures AllSafe(w, StartEvents(w.disk, generation, i), clock)
  {
    var m := w.disk;
    if i.start.failure.None? {
      CallThenWrite(w, StartCall, i.start, m.(managed := Some(generation), reason := Started, inflight := None), clock);
    } else {
      var w1 := After(w, StartCall, i.start);
      var l := CleanedUp(m, i.start.failure.value, i.stop.failure);
      var a, b := CallEvents(StartCall, i.start), CallEvents(StopCall, i.stop);
      CallSafe(w, StartCall, i.start, clock);
      CallThenWrite(w1, StopCall, i.stop, l, clock);
      SafeAdd(w, a, b + [Write(l)], clock);
      Assoc(a, b, [Write(l)]);
    }
  }

  /** The clock readings of a tick follow those of every earlier one. */
  ghost predicate Timely(i: TickInput, clock: real) { 0.0 <= clock <= i.now <= i.stamp <= i.last }

  ghost predicate Hosted(i: TickInput) { Shaped(StartCall, i.start) && Shaped(StopCall, i.stop) }

  lemma {:induction false} TickSafe(w: World, i: TickInput, clock: real)
    requires Inv(w, clock) && Timely(i, clock) && Hosted(i)
    ensures AllSafe(w, TickEvents(w.disk, i), i.last)
  {
    var s := w.disk;
    if i.snapshot.None? {
      Single(w, Write(Failed(s, i.error)), i.last);
    } else {
      var o := i.snapshot.value;
      var d, action := Decide(s, o, i.now).0, Decide(s, o, i.now).1;
      DecideKeeps(s, o, i.now);
      Single(w, Write(d), i.last);
      StartExactly(s, o, i.now);
      StopExactly(s, o, i.now);
      if action != Wait {
        AheadSafe(w, i, d, action, clock);
      }
    }
  }

  /** The ledger written ahead is as good as the one decided on. */
  lemma {:induction false} AheadIsSafe(w: World, i: TickInput, d: Ledger, action: Action, m: Ledger, clock: real)
    requires Inv(w, clock) && Timely(i, clock) && i.snapshot.Some? && i.snapshot.value.device.Some?
    requires Decide(w.disk, i.snapshot.value, i.now) == (d, action) && action != Wait && !w.disk.paused
    requires m == Ahead(d, action, i.snapshot.value.device.value.generation, i)
    ensures Safe(Apply(w, Write(d)), Write(m), i.last) && Inv(w, i.last)
    ensures m.inflight.Some? && !m.paused && (action == Start ==> w.inserts < |m.attempts|)
  {
    var s, o := w.disk, i.snapshot.value;
    DecideKeeps(s, o, i.now);
    if action == Start { AttemptKeepsBudget(s, o, i.now, i.stamp, i.last); }
  }

  /** Writing ahead of a mutation. */
  lemma {:induction false} AheadWrites(w: World, i: TickInput, d: Ledger, action: Action, m: Ledger, clock: real)
    requires Inv(w, clock) && Timely(i, clock) && i.snapshot.Some? && i.snapshot.value.device.Some?
    requires Decide(w.disk, i.snapshot.value, i.now) == (d, action) && action != Wait && !w.disk.paused
    requires Safe(w, Write(d), i.last) && m == Ahead(d, action, i.snapshot.value.device.value.generation, i)
    ensures AllSafe(w, [Write(d), Write(m)], i.last)
    ensures var w' := ApplyAll(w, [Write(d), Write(m)]);
      && w'.disk == m && Inv(w', i.last) && m.inflight.Some? && !m.paused
      && (action == Start ==> w'.inserts < |m.attempts|)
  {
    var w1 := Apply(w, Write(d));
    AheadIsSafe(w, i, d, action, m, clock);
    ApplyInv(w, Write(d), i.last);
    ApplyInv(w1, Write(m), i.last);
    Single(w, Write(d), i.last);
    Single(w1, Write(m), i.last);
    SafeAdd(w, [Write(d)], [Write(m)], i.last);
    assert [Write(d)] + [Write(m)] == [Write(d), Write(m)];
  }

  /** Writing ahead of a mutation, then the mutation. */
  lemma {:induction false} AheadSafe(w: World, i: TickInput, d: Ledger, action: Action, clock: real)
    requires Inv(w, clock) && Timely(i, clock) && Hosted(i) && i.snapshot.Some?
    requires Decide(w.disk, i.snapshot.value, i.now) == (d, action) && action != Wait
    requires i.snapshot.value.device.Some? && !w.disk.paused && Safe(w, Write(d), i.last)
    ensures AllSafe(w, TickEvents(w.disk, i), i.last)
  {
    var g := i.snapshot.value.device.value.generation;
    var m := Ahead(d, action, g, i);
    AheadWrites(w, i, d, action, m, clock);
    var w2 := ApplyAll(w, [Write(d), Write(m)]);
    if action == Start {
      StartSafe(w2, g, i, i.last);
      SafeAdd(w, [Write(d), Write(m)], StartEvents(m, g, i), i.last);
    } else {
      StopSafe(w2, i, i.last);
      SafeAdd(w, [Write(d), Write(m)], StopEvents(m, i), i.last);
    }
  }

  lemma {:induction false} StopSafe(w: World, i: TickInput, clock: real)
    requires Inv(w, clock) && w.disk.inflight.Some? && !w.disk.paused && Shaped(StopCall, i.stop)
    ensures AllSafe(w, StopEvents(w.disk, i), clock)
  {
    var m := w.disk;
    CallThenWrite(w, StopCall, i.stop,
                  if i.stop.failure.None? then m.(managed := None, inflight := None)
                  else Failed(m, i.stop.failure.value),
                  clock);
  }

  lemma {:induction false} StopPreservingSafe(w: World, p: Ledger, stop: Outcome, clock: real)
    requires Inv(w, clock) && p.inflight.Some? && Shaped(StopCall, stop) && clock >= 0.0
    requires Safe(w, Write(p), clock)
    ensures AllSafe(w, [Write(p)] + StopPreserving(p, stop), clock)
  {
    var w1 := Apply(w, Write(p));
    Single(w, Write(p), clock);
    var message := if stop.failure.Some? then CommandFailed(Cut(stop.failure.value)) else Ready;
    var l := if stop.failure.None? then p.(managed := None, inflight := None)
             else p.(circuit := Some(message), reason := message,
                     inflight := Some(p.inflight.value.(error := Some(Cut(stop.failure.value)))));
    CallThenWrite(w1, StopCall, stop, l, clock);
    SafeAdd(w, [Write(p)], StopPreserving(p, stop), clock);
  }

  lemma {:induction false} CommandSafe(w: World, c: Command, i: CommandInput, clock: real)
    requires Inv(w, clock) && clock >= 0.0 && Shaped(StopCall, i.stop)
    ensures AllSafe(w, CommandEvents(w.disk, c, i), clock)
  {
    var s, es := w.disk, CommandEvents(w.disk, c, i);
    match c
    case Pause =>
      if s.desired {
        var p := s.(paused := true, inflight := Some(Inflight(SleepStop, None, None, None)));
        StopPreservingSafe(w, p, i.stop, clock);
      } else if i.markerTrusted {
        Single(w, MarkerGone(Pause), clock);
      }
    case StopCommand =>
      StopPreservingSafe(w, s.(desired := false, inflight := Some(Inflight(DoStop, None, None, None))), i.stop, clock);
    case Resume =>
      if s.paused && s.inflight.None? {
        var l := s.(paused := false, candidate := None);
        Single(w, MarkerGone(Resume), clock);
        Single(w, Write(l), clock);
        SafeAdd(w, [MarkerGone(Resume)], [Write(l)], clock);
        SafeAdd(w, [], [Write(l)], clock);
      }
    case ClearCircuit =>
      Single(w, MarkerGone(ClearCircuit), clock);
      Single(w, Renew(FreshState(s.bootId)), clock);
      SafeAdd(w, [MarkerGone(ClearCircuit)], [Renew(FreshState(s.bootId))], clock);
      SafeAdd(w, [], [Renew(FreshState(s.bootId))], clock);
    case StartCommand =>
      if i.artifactApproved { Single(w, es[0], clock); }
  }
}
