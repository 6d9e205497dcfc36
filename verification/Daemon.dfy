/**
 * `tick` and `operate` as they run: a ledger in memory, one on disk, and a host that does what it is scripted to
 * (controller.py:535-579, 610-677).
 */
module Daemon {
  import opened Wrappers
  import opened Policy
  import opened Controller
  import opened ControllerRuns
  import opened ControllerLaws

  class Store {
    var disk: Ledger
    /** Everything done so far, in order. */
    ghost var journal: seq<Event>

    constructor (bootId: string)
      ensures disk == FreshState(bootId) && journal == []
    {
      disk, journal := FreshState(bootId), [];
    }

    /** `StateStore.read`: a ledger of another boot is forgotten, an invalid one refused. */
    method Read(bootId: string) returns (state: Option<Ledger>)
      ensures disk.bootId != bootId ==> state == Some(FreshState(bootId))
      ensures disk.bootId == bootId ==> state == if Validates(disk) then Some(disk) else None
    {
      if disk.bootId != bootId { return Some(FreshState(bootId)); }
      if |disk.attempts| > BOOT_ATTEMPTS { return None; }
      for k := 0 to |disk.attempts|
        invariant forall j | 0 <= j < k :: disk.attempts[j] >= 0.0
      {
        if disk.attempts[k] < 0.0 { return None; }
      }
      if disk.candidateSince < 0.0 || (disk.lastAttempt.Some? && disk.lastAttempt.value < 0.0) { return None; }
      state := Some(disk);
    }

    method Save(state: Ledger)
      modifies this
      ensures disk == state && journal == old(journal) + [Write(state)]
    {
      disk, journal := state, journal + [Write(state)];
    }

    /** A host call: it does what its script says, then returns or raises. */
    method Host(c: Call, o: Outcome) returns (failure: Option<string>)
      modifies this`journal
      ensures failure == o.failure && journal == old(journal) + CallEvents(c, o)
    {
      failure := o.failure;
      journal := journal + CallEvents(c, o);
    }

    /** `tick`, given the ledger just read. */
    method Tick(read: Ledger, i: TickInput) returns (state: Ledger)
      modifies this
      ensures journal == old(journal) + TickEvents(read, i) && disk == state
    {
      state := read;
      if i.snapshot.None? {
        state := Failed(state, i.error);
        Save(state);
        return;
      }
      var observation := i.snapshot.value;
      var (decided, action) := Decide(state, observation, i.now);
      state := decided;
      Save(state);
      if action == Wait || observation.device.None? { return; }
      Ticked(read, i);
      ghost var saved := journal;
      state := WriteAhead(decided, action, observation.device.value.generation, i);
      Assoc(old(journal), [Write(decided)], journal[|saved|..]);
    }

    /** The ledger is written before the mutation it announces. */
    method WriteAhead(decided: Ledger, action: Action, generation: string, i: TickInput) returns (state: Ledger)
      modifies this
      ensures var m := Ahead(decided, action, generation, i);
        journal == old(journal) + ([Write(m)] + if action == Start then StartEvents(m, generation, i)
                                                else StopEvents(m, i))
      ensures disk == state
    {
      var act := if action == Start then DoStart else DoStop;
      state := decided.(inflight := Some(Inflight(act, Some(generation), None, None)));
      if action == Start {
        state := state.(attempts := state.attempts + [i.stamp], lastAttempt := Some(i.last));
      }
      Save(state);
      ghost var m := state;
      if action == Start {
        state := StartAndRecord(state, generation, i);
        Assoc(old(journal), [Write(m)], StartEvents(m, generation, i));
      } else {
        state := StopAndRecord(state, i);
        Assoc(old(journal), [Write(m)], StopEvents(m, i));
      }
    }

    /** A failed start gets one cleanup. */
    method StartAndRecord(ahead: Ledger, generation: string, i: TickInput) returns (state: Ledger)
      requires ahead.inflight.Some?
      modifies this
      ensures journal == old(journal) + StartEvents(ahead, generation, i) && disk == state
    {
      state := ahead;
      var failure := Host(StartCall, i.start);
      if failure.None? {
        state := state.(managed := Some(generation), reason := Started, inflight := None);
      } else {
        state := state.(circuit := Some(Said(failure.value)), reason := Said(failure.value));
        ghost var before := journal;
        var cleanup := Host(StopCall, i.stop);
        Assoc(old(journal), CallEvents(StartCall, i.start), CallEvents(StopCall, i.stop));
        if cleanup.None? {
          state := state.(managed := None, inflight := None);
        } else {
          var both := CleanupFailed(Said(failure.value), Cut(cleanup.value));
          state := state.(inflight := Some(state.inflight.value.(cleanupError := Some(Cut(cleanup.value)))),
                          circuit := Some(both), reason := both);
        }
      }
      Save(state);
    }

    method StopAndRecord(ahead: Ledger, i: TickInput) returns (state: Ledger)
      modifies this
      ensures journal == old(journal) + StopEvents(ahead, i) && disk == state
    {
      var failure := Host(StopCall, i.stop);
      state := if failure.None? then ahead.(managed := None, inflight := None)
               else ahead.(circuit := Some(Said(failure.value)), reason := Said(failure.value));
      Save(state);
    }

    /** `stop_preserving_failure` and the record of success; false when it raised. */
    method StopOrPreserve(p: Ledger, stop: Outcome) returns (ok: bool)
      requires p.inflight.Some?
      modifies this
      ensures journal == old(journal) + StopPreserving(p, stop) && ok == stop.failure.None?
      ensures if ok then disk == p.(managed := None, inflight := None)
              else
                var message := CommandFailed(Cut(stop.failure.value));
                disk == p.(circuit := Some(message), reason := message,
                           inflight := Some(p.inflight.value.(error := Some(Cut(stop.failure.value)))))
    {
      var failure := Host(StopCall, stop);
      ok := failure.None?;
      if ok {
        Save(p.(managed := None, inflight := None));
      } else {
        var message := CommandFailed(Cut(failure.value));
        Save(p.(circuit := Some(message), reason := message,
                inflight := Some(p.inflight.value.(error := Some(Cut(failure.value))))));
      }
    }

    method Unlink(c: Command)
      modifies this`journal
      ensures journal == old(journal) + [MarkerGone(c)]
    {
      journal := journal + [MarkerGone(c)];
    }

    /** `operate`, given the ledger just read; false when it refused. */
    method Operate(read: Ledger, c: Command, i: CommandInput) returns (ok: bool)
      modifies this
      ensures journal == old(journal) + CommandEvents(read, c, i)
      ensures ok <==> Accepts(read, c, i)
      ensures read == old(disk) ==> Leaves(read, c, i, disk)
    {
      match c
      case Pause =>
        if !read.desired {
          if !i.markerTrusted { return false; }
          Unlink(Pause);
          return true;
        }
        var p := read.(paused := true, inflight := Some(Inflight(SleepStop, None, None, None)));
        Save(p);
        ok := StopOrPreserve(p, i.stop);
        Assoc(old(journal), [Write(p)], StopPreserving(p, i.stop));
      case Resume =>
        if !read.desired && !read.paused && !i.markerPresent { return true; }
        if !read.paused || read.inflight.Some? { return false; }
        if i.markerPresent {
          if !i.markerTrusted { return false; }
          Unlink(Resume);
        }
        Save(read.(paused := false, candidate := None));
        ok := true;
      case StopCommand =>
        var p := read.(desired := false, inflight := Some(Inflight(DoStop, None, None, None)));
        Save(p);
        ok := StopOrPreserve(p, i.stop);
        Assoc(old(journal), [Write(p)], StopPreserving(p, i.stop));
      case ClearCircuit =>
        if i.snapshotFails || (i.device.Some? && i.device.value.driver != Unbound) { return false; }
        var renewed := FreshState(read.bootId);
        if i.markerPresent {
          if !i.markerTrusted { return false; }
          Unlink(ClearCircuit);
        }
        disk, journal := renewed, journal + [Renew(renewed)];
        ok := true;
      case StartCommand =>
        if !i.artifactApproved { return false; }
        Save(read.(desired := true));
        ok := true;
    }
  }

  lemma {:induction false} Ticked(s: Ledger, i: TickInput)
    requires i.snapshot.Some? && i.snapshot.value.device.Some? && Decide(s, i.snapshot.value, i.now).1 != Wait
    ensures var (d, action) := Decide(s, i.snapshot.value, i.now);
      var g := i.snapshot.value.device.value.generation;
      var m := Ahead(d, action, g, i);
      TickEvents(s, i) == [Write(d)] + ([Write(m)] + if action == Start then StartEvents(m, g, i) else StopEvents(m, i))
  {
    var (d, action) := Decide(s, i.snapshot.value, i.now);
    var m := Ahead(d, action, i.snapshot.value.device.value.generation, i);
    assert [Write(d)] + [Write(m)] == [Write(d), Write(m)];
  }
}
