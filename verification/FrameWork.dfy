/**
 * `t6_frame_work` for raw head 0 (trigger6_drv.c:2350-2523): the pending slot, the damage scan, the sender and the idle
 * refresh together.
 */
module FrameWork {
  import opened Bits
  import opened Wrappers
  import opened Damage
  import opened Vram
  import opened RawHead
  import opened RawDriver
  import opened UsbDevice
  import opened TxSlots

  /** How a turn of the worker ended. */
  datatype Turn = Nothing | Shown | Lost | Replayed | Stale

  class RawWorker {
    const tx: TxHead
    const head: Head
    const dmg: FrameDamage
    /** The module parameter that allows idle refreshes. */
    const idleRefresh: bool
    var scanoutActive: bool
    var keepaliveDue: bool
    /** What the device memory held at first. */
    ghost const vram0: seq<byte>

    constructor (tx: TxHead, head: Head, dmg: FrameDamage, idleRefresh: bool, ghost vram0: seq<byte>)
      requires tx.Valid() && tx.slots == EMPTY && head.Valid() && head.shown == None && !head.lastSentValid
      requires head.t6.wire == [] && head.mode.Fits(vram0) && dmg.ranges.Length == MAX_DIRTY_RANGES
      requires tx.txFront.Length == head.mode.Size() && !tx.ioFaulted
      requires Apart(tx.txFront, head) && Apart(tx.txBack, head)
      ensures Valid() && this.tx == tx && this.head == head && !scanoutActive && !keepaliveDue
    {
      this.tx, this.head, this.dmg, this.idleRefresh, this.vram0 := tx, head, dmg, idleRefresh, vram0;
      scanoutActive, keepaliveDue := false, false;
    }

    static predicate Apart(buf: array<byte>, head: Head) { buf != head.lastSent && buf != head.videoStaging }

    /** Both parts are sound, and VRAM holds the last frame that was sent or skipped. */
    ghost predicate Valid()
      reads this, tx, tx.txFront, tx.txBack, head, head.t6, head.lastSent
    {
      && tx.Valid() && head.Valid() && dmg.ranges.Length == MAX_DIRTY_RANGES
      && head.mode.Fits(vram0) && Mirrors(head.mode, vram0, head.Abs())
      && tx.txFront.Length == head.mode.Size()
      && (forall k | 0 <= k < |tx.frames| :: head.mode.Frame(tx.frames[k]))
      && Apart(tx.txFront, head) && Apart(tx.txBack, head)
      && ShowsLast(tx.slots, tx.frames, head.shown)
      && (tx.ioFaulted ==> head.t6.ioFaulted)
    }

    /** `t6_raw_refresh_eligible`. */
    predicate Eligible()
      reads this, tx, head, head.t6
    {
      && idleRefresh && !head.t6.manualOnly && scanoutActive && head.connected && head.lastSentValid
      && !head.t6.ioFaulted && !tx.ioFaulted
    }

    /** The pixels on the monitor. */
    ghost function Screen(): seq<byte>
      requires head.mode.Fits(vram0)
      reads this, head, head.t6
    {
      head.mode.Region(Consume(vram0, head.t6.wire))
    }

    /** The damage scan and the send of the frame in hand. */
    method SendHeld(len: nat) returns (ret: int)
      requires Valid() && tx.slots.hand.Some? && len == |tx.frames[tx.slots.hand.value]|
      modifies head, head.t6, head.lastSent, head.videoStaging, dmg, dmg.ranges
      ensures tx.Valid() && head.Valid() && Mirrors(head.mode, vram0, head.Abs())
      ensures old(head.t6.ioFaulted) ==> head.t6.ioFaulted
      ensures head.shown == if ret == 0 then Some(tx.frames[tx.slots.hand.value]) else old(head.shown)
    {
      ghost var s, frame := head.Abs(), tx.txFront[..];
      assert frame == tx.frames[tx.slots.hand.value];
      head.ComputeDamage(tx.txFront, dmg);
      assert head.Abs() == s;
      ret := head.SendFrameRaw(tx.txFront, len, dmg);
      StepMirrors(head.mode, vram0, s, Submit(frame), head.Abs());
    }

    method SendAndEnd(len: nat) returns (ret: int)
      requires Valid() && tx.slots.hand.Some? && len == |tx.frames[tx.slots.hand.value]|
      modifies tx`slots, head, head.t6, head.lastSent, head.videoStaging, dmg, dmg.ranges
      ensures Valid() && tx.slots == Do(old(tx.slots), Finish(ret == 0))
    {
      ghost var was, shown := tx.slots, head.shown;
      ret := SendHeld(len);
      ShowsFinish(was, ret == 0, tx.frames, shown, head.shown);
      ghost var seen := tx.EndSend(ret == 0);
    }

    method DropHeld()
      requires Valid() && tx.slots.hand.Some?
      modifies tx`slots
      ensures Valid() && tx.slots == Do(old(tx.slots), Finish(false))
    {
      ghost var seen := tx.EndSend(false);
    }

    /** A popped frame: send, and the verdict. `connected` and `entered` are the guards on the way. */
    method SendPopped(connected: bool, entered: bool, len: nat) returns (ok: bool)
      requires Valid() && tx.slots.hand.Some? && len == |tx.frames[tx.slots.hand.value]|
      modifies tx, head, head.t6, head.lastSent, head.videoStaging, dmg, dmg.ranges
      ensures Valid() && tx.frames == old(tx.frames) && (ok ==> connected && entered)
      ensures if ok then tx.slots == Do(old(tx.slots), Finish(true)) else Dropping(old(tx.slots), tx.slots)
    {
      if !connected || !entered {
        DropHeld();
        return false;
      }
      var ret := SendAndEnd(len);
      ok := ret == 0;
      if !ok {
        Trip(ret);
        assert Valid();
      }
    }

    /** While no fault is latched, the monitor shows the last frame handed to the sender that was sent or skipped. */
    lemma {:induction false} ScreenIsLastSent()
      requires Valid() && !head.t6.ioFaulted && tx.slots.sent != []
      ensures tx.slots.sent[|tx.slots.sent| - 1] < |tx.frames|
      ensures Screen() == tx.frames[tx.slots.sent[|tx.slots.sent| - 1]]
    {
    }

    /**
     * `t6_frame_work`. `connected` and `entered` are the guards on the way; `idle` is whether an idle interval has
     * passed since the last send when the replay is about to start.
     */
    method Work(connected: bool, entered: bool, idle: bool) returns (turn: Turn)
      requires Valid() && tx.slots.hand.None?
      modifies this, tx, head, head.t6, head.lastSent, head.videoStaging, dmg, dmg.ranges
      ensures Valid() && tx.frames == old(tx.frames)
      ensures old(head.t6.ioFaulted) || (old(tx.slots).pending.None? && !old(keepaliveDue)) ==>
        turn == Nothing && tx.slots == old(tx.slots) && head.Abs() == old(head.Abs())
      ensures old(tx.slots).pending.Some? && !old(head.t6.ioFaulted) <==> turn == Shown || turn == Lost
      ensures turn == Shown ==> old(tx.slots).pending.Some? && tx.slots == Do(Do(old(tx.slots), Pop), Finish(true))
      ensures turn == Lost ==> old(tx.slots).pending.Some? && Dropping(Do(old(tx.slots), Pop), tx.slots)
      ensures turn == Replayed || turn == Stale ==> !keepaliveDue && tx.slots == old(tx.slots)
      ensures turn == Replayed ==>
        old(keepaliveDue && Eligible()) && idle && (head.t6.ioFaulted || Some(Screen()) == old(head.Last()))
    {
      if head.t6.ioFaulted || tx.ioFaulted { return Nothing; }
      if tx.txPending {
        turn := SendPending(connected, entered);
      } else if keepaliveDue && Eligible() {
        keepaliveDue := false;
        turn := Replay(connected, entered, idle);
      } else {
        turn := Nothing;
      }
    }

    /** A turn with a frame pending. */
    method SendPending(connected: bool, entered: bool) returns (turn: Turn)
      requires Valid() && tx.slots.hand.None? && tx.slots.pending.Some?
      modifies tx, head, head.t6, head.lastSent, head.videoStaging, dmg, dmg.ranges
      ensures Valid() && tx.frames == old(tx.frames)
      ensures if turn == Shown then tx.slots == Do(Do(old(tx.slots), Pop), Finish(true))
              else turn == Lost && Dropping(Do(old(tx.slots), Pop), tx.slots)
    {
      var popped, len := TakePending();
      var ok := SendPopped(connected, entered, len);
      turn := if ok then Shown else Lost;
    }

    /** The pop, under `tx_lock`. */
    method TakePending() returns (popped: bool, len: nat)
      requires Valid() && tx.slots.hand.None?
      modifies tx
      ensures Valid() && tx.frames == old(tx.frames) && tx.slots == Do(old(tx.slots), Pop)
      ensures popped == tx.slots.hand.Some? && (popped ==> len == |tx.frames[tx.slots.hand.value]|)
    {
      var queuedNs;
      popped, len, queuedNs := tx.PopPending();
    }

    /** The producer. */
    method Queue(frame: seq<byte>, queuedNs: nat)
      requires Valid() && head.mode.Frame(frame)
      modifies tx, tx.txBack
      ensures Valid() && tx.slots == Do(old(tx.slots), Stage) && tx.frames == old(tx.frames) + [frame]
    {
      tx.StagePending(frame, queuedNs);
    }

    /** A disable may have begun since the replay was decided on; it waits for the worker before it does more. */
    method MayGoDark()
      requires Valid()
      modifies this`scanoutActive
      ensures Valid()
    {
      var dark: bool := *;
      scanoutActive := scanoutActive && !dark;
    }

    /**
     * The replay of the last frame, when it is still due under `io_lock`. Its failure is reported by the latch alone.
     */
    method Replay(connected: bool, entered: bool, idle: bool) returns (turn: Turn)
      requires Valid() && Eligible()
      modifies this`scanoutActive, head, head.t6, head.videoStaging, head.lastSent
      ensures Valid() && (turn == Replayed || turn == Stale)
      ensures turn == Replayed ==> idle && (head.t6.ioFaulted || Some(Screen()) == old(head.Last()))
    {
      if !connected || !entered { return Stale; }
      MayGoDark();
      if !Eligible() || !idle { return Stale; }
      ghost var s := head.Abs();
      var ret := head.SendFrameRaw(head.lastSent, head.mode.Size(), null);
      StepMirrors(head.mode, vram0, s, Refresh, head.Abs());
      turn := if ret == 0 then Replayed else Stale;
    }

    /** The timer's request, once it has found the refresh due. */
    method AskRefresh()
      modifies this`keepaliveDue
      ensures keepaliveDue
    {
      keepaliveDue := true;
    }

    /** What CRTC disable leaves, once it has waited for the worker. */
    method GoDark()
      requires Valid() && tx.slots.hand.None?
      modifies this`scanoutActive, this`keepaliveDue, head`lastSentValid
      ensures Valid() && !Eligible() && !keepaliveDue && !scanoutActive && !head.lastSentValid
    {
      ghost var s := head.Abs();
      scanoutActive := false;
      keepaliveDue := false;
      head.Invalidate();
      StepMirrors(head.mode, vram0, s, Disable, head.Abs());
    }

    /** `t6_trip_transport_fault` for this head. */
    method Trip(ret: int)
      requires Valid()
      modifies tx, head.t6`ioFaulted, head.t6`ioLastError
      ensures Valid() && head.t6.ioFaulted && tx.frames == old(tx.frames)
      ensures tx.slots == old(tx.slots) || tx.slots == Do(old(tx.slots), TxSlots.Trip)
    {
      var already := tx.ioFaulted;
      tx.TripFault();
      if already { return; }
      ghost var s := head.Abs();
      var r := head.t6.LatchIoError(ret);
      StepMirrors(head.mode, vram0, s, Fault, head.Abs());
    }
  }

  /** The frame in hand is dropped; a failed send trips the fault as well, which drops a pending one. */
  ghost predicate Dropping(s: Slots, s': Slots)
    requires s.hand.Some?
  {
    s' == Do(s, Finish(false)) || s' == Do(Do(s, Finish(false)), TxSlots.Trip)
  }

  /** The last frame sent is the one shown. */
  ghost predicate ShowsLast(s: Slots, frames: seq<seq<byte>>, shown: Option<seq<byte>>) {
    s.sent != [] ==> s.sent[|s.sent| - 1] < |frames| && shown == Some(frames[s.sent[|s.sent| - 1]])
  }

  lemma {:induction false} ShowsFinish(s: Slots, ok: bool, frames: seq<seq<byte>>, before: Option<seq<byte>>,
                                       after: Option<seq<byte>>)
    requires s.hand.Some? && s.hand.value < |frames| && ShowsLast(s, frames, before)
    requires after == if ok then Some(frames[s.hand.value]) else before
    ensures ShowsLast(Do(s, Finish(ok)), frames, after)
  {
  }
}
