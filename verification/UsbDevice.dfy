/** `struct t6_device` and everything that talks to the USB core (trigger6_drv.c:1173-1314, 3198-3264). */
module UsbDevice {
  import opened Bits
  import opened Errno
  import opened Vram
  import Latch = FaultLatch

  const CHUNK: nat := 102400

  /** What the final-off policy looks at. */
  datatype Policy = Policy(enabled: bool, manualOnly: bool, queryOnly: bool, outputMask: nat, profileMatches: bool,
                           pathMatches: bool, primaryRaw: bool, wasActive: bool, sinkValid: bool, edidValid: bool,
                           faulted: bool, usbConfigured: bool, unbinding: bool, drained: bool)

  /** `t6_final_off_skip` finds no reason to skip. */
  predicate NoSkip(p: Policy) {
    && p.enabled && !(p.manualOnly || p.queryOnly) && !(p.outputMask != 1 || !p.primaryRaw)
    && !(!p.profileMatches || !p.pathMatches) && p.wasActive && !(!p.sinkValid || !p.edidValid)
    && !p.faulted && !(!p.usbConfigured || !p.unbinding) && p.drained
  }

  /** The part of the policy that the state of the latch machine does not decide. */
  predicate Others(p: Policy) {
    && p.enabled && p.outputMask == 1 && p.primaryRaw && p.profileMatches && p.pathMatches && p.wasActive
    && p.sinkValid && p.edidValid && !p.faulted && p.usbConfigured && p.unbinding
  }

  class Device {
    const manualOnly: bool
    const queryOnly: bool
    const hasChunk: bool
    var ioFaulted: bool
    var ioLastError: int
    var unplugged: bool
    var hasQueue: bool
    /** Every byte the device has taken from the bulk endpoint. */
    ghost var wire: seq<byte>
    /** Transfers submitted to the USB core. */
    ghost var sent: seq<Latch.Transfer>
    /** Who is inside `drm_dev_enter`, which keepalive works run, and how far disconnect has got. */
    ghost var inside: nat
    ghost var booting: nat
    ghost var bootGone: bool
    ghost var stage: Latch.Stage

    constructor (manualOnly: bool, queryOnly: bool, hasChunk: bool)
      ensures Latch.Start(Abs()) && !ioFaulted && wire == []
      ensures this.manualOnly == manualOnly && this.queryOnly == queryOnly && this.hasChunk == hasChunk
    {
      this.manualOnly, this.queryOnly, this.hasChunk := manualOnly, queryOnly, hasChunk;
      ioFaulted, ioLastError, unplugged, hasQueue, wire, sent := false, 0, false, true, [], [];
      inside, booting, bootGone, stage := 0, 0, false, Latch.Live;
    }

    /** The state of the latch machine. */
    ghost function Abs(): Latch.State
      reads this
    {
      Latch.State(manualOnly, queryOnly, ioFaulted, unplugged, hasQueue, bootGone, inside, booting, stage, sent)
    }

    /** `t6_latch_io_error`; the latch is only ever set. */
    method LatchIoError(ret: int) returns (r: int)
      modifies this`ioFaulted, this`ioLastError
      ensures ioFaulted && ioLastError == ret && r == ret
    {
      ioLastError := ret;
      ioFaulted := true;
      r := ret;
    }

    /** Another thread may latch a fault at any time. */
    method OthersMayLatch()
      modifies this`ioFaulted, this`ioLastError
      ensures old(ioFaulted) ==> ioFaulted
    {
      var other: bool := *;
      if other {
        var error: int := *;
        var r := LatchIoError(error);
      }
    }

    // ---- Control transfers ------------------------------------------------------------------

    /** `usb_control_msg`: the adversary decides what it returns, and what a read has read. */
    method UsbControl(t: Latch.Transfer, size: nat) returns (ret: int, answer: seq<byte>)
      modifies this`sent
      ensures sent == old(sent) + [t] && |answer| == size
    {
      ret := *;
      answer := *;
      if |answer| != size { answer := Repeat(0, size); }
      sent := sent + [t];
    }

    /** `t6_ctrl_out`; `hasData` is whether a payload was given, `memory` whether its copy could be made. */
    method CtrlOut(size: nat, hasData: bool, memory: bool) returns (ret: int)
      modifies this`ioFaulted, this`ioLastError, this`sent
      ensures var refused := size != 0 && (!hasData || !memory);
        Abs() == if refused then old(Abs()) else Latch.Submit(old(Abs()), false, ret == size)
      ensures sent == old(sent) ==>
        ret == -(if queryOnly then EPERM else if manualOnly || old(ioFaulted) then EIO
                 else if !hasData then EINVAL else ENOMEM)
      ensures sent != old(sent) ==> ioFaulted == (ret != size)
      ensures sent != old(sent) && ret != size ==> ret < 0 && ioLastError == ret
    {
      if queryOnly { return -EPERM; }
      if manualOnly || ioFaulted { return -EIO; }
      if size != 0 {
        if !hasData { return -EINVAL; }
        if !memory { return -ENOMEM; }
      }
      var answer;
      ret, answer := UsbControl(Latch.Ordinary, 0);
      if ret != size {
        ret := LatchIoError(if ret < 0 then ret else -EIO);
      }
    }

    /** `t6_ctrl_in`; `allowed` is the query-only whitelist's answer. What a short read brought is not passed on. */
    method CtrlIn(data: array?<byte>, size: nat, allowed: bool, memory: bool)
        returns (ret: int, ghost answer: seq<byte>)
      requires data != null ==> size <= data.Length
      modifies this`ioFaulted, this`ioLastError, this`sent, data
      ensures var refused := size == 0 || data == null || !memory;
        Abs() == if refused then old(Abs()) else Latch.Submit(old(Abs()), allowed, ret == size)
      ensures data != null ==> data[size..] == old(data[size..])
      ensures sent == old(sent) && data != null ==> data[..] == old(data[..])
      ensures sent == old(sent) ==>
        ret == -(if manualOnly || old(ioFaulted) then EIO else if queryOnly && !allowed then EPERM
                 else if size == 0 || data == null then EINVAL else ENOMEM)
      ensures sent != old(sent) ==> data != null && data[..size] == if ret == size then answer else Repeat(0, size)
      ensures sent != old(sent) ==> ioFaulted == (ret != size)
      ensures sent != old(sent) && ret != size ==> ret < 0 && ioLastError == ret
    {
      answer := [];
      if manualOnly || ioFaulted { return -EIO, answer; }
      if queryOnly && !allowed { return -EPERM, answer; }
      if size == 0 || data == null { return -EINVAL, answer; }
      if !memory { return -ENOMEM, answer; }
      forall i | 0 <= i < size { data[i] := 0; }
      var buf;
      ret, buf := UsbControl(Latch.Ordinary, size);
      answer := buf;
      if ret == size {
        forall i | 0 <= i < size { data[i] := buf[i]; }
      } else {
        ret := LatchIoError(if ret < 0 then ret else -EIO);
      }
    }

    // ---- Bulk transfers ---------------------------------------------------------------------

    /** Reasons to send nothing that last as long as the device does. */
    predicate Refuses() { queryOnly || manualOnly || !hasChunk }

    /** `usb_bulk_msg` against an adversary: it takes any part of the chunk and reports what it likes of a failure. */
    method UsbBulk(chunk: seq<byte>) returns (ret: int, actual: nat)
      modifies this`wire, this`sent
      ensures actual <= |chunk| && (ret >= 0 ==> wire == old(wire) + chunk[..actual])
      ensures old(wire) <= wire && sent == old(sent) + [Latch.Ordinary]
    {
      ret := *;
      var reported: int := *;
      var taken: int := *;
      actual := if 0 <= reported <= |chunk| then reported else 0;
      if ret >= 0 || taken < 0 || taken > |chunk| { taken := actual; }
      wire, sent := wire + chunk[..taken], sent + [Latch.Ordinary];
    }

    /** One round of the chunk loop. */
    method WriteChunk(chunk: seq<byte>) returns (ret: int)
      requires !queryOnly && !manualOnly
      modifies this`ioFaulted, this`ioLastError, this`wire, this`sent
      ensures Latch.Traffic(old(Abs()), Abs())
      ensures old(wire) <= wire && (old(ioFaulted) ==> wire == old(wire))
      ensures ret == 0 ==> wire == old(wire) + chunk && !old(ioFaulted)
      ensures ret != 0 ==> ioFaulted
    {
      OthersMayLatch();
      if ioFaulted { return -EIO; }
      var actual;
      ret, actual := UsbBulk(chunk);
      if ret < 0 {
        ret := LatchIoError(ret);
      } else if actual != |chunk| {
        ret := LatchIoError(-EIO);
      } else {
        ret := 0;
      }
    }

    /** `t6_bulk_write`: in chunks, stopping at the latch. */
    method BulkWrite(src: seq<byte>) returns (ret: int)
      modifies this`ioFaulted, this`ioLastError, this`wire, this`sent
      ensures Latch.Traffic(old(Abs()), Abs())
      ensures old(ioFaulted) ==> ioFaulted && wire == old(wire)
      ensures old(wire) <= wire
      ensures ret == 0 ==> wire == old(wire) + src && (src != [] ==> !Refuses() && !old(ioFaulted))
      ensures ret != 0 ==> ioFaulted || (Refuses() && wire == old(wire))
    {
      ret := 0;
      if queryOnly { return -EPERM; }
      if manualOnly || ioFaulted { return -EIO; }
      if |src| == 0 { return 0; }
      if !hasChunk { return -ENOMEM; }
      var cursor := 0;
      while cursor < |src|
        invariant cursor <= |src| && wire == old(wire) + src[..cursor]
        invariant Latch.Traffic(old(Abs()), Abs())
      {
        var chunk := if |src| - cursor < CHUNK then |src| - cursor else CHUNK;
        ghost var mid, s := wire, Abs();
        ret := WriteChunk(src[cursor..cursor + chunk]);
        Latch.TrafficJoins(old(Abs()), s, Abs());
        assert old(wire) <= mid <= wire;
        if ret != 0 { return; }
        assert src[..cursor] + src[cursor..cursor + chunk] == src[..cursor + chunk];
        cursor := cursor + chunk;
      }
      assert src[..cursor] == src;
      ret := 0;
    }

    /** A bulk header, then its payload. */
    method WritePacket(p: Packet) returns (ret: int)
      requires p.Valid()
      modifies this`ioFaulted, this`ioLastError, this`wire, this`sent
      ensures Latch.Traffic(old(Abs()), Abs())
      ensures old(ioFaulted) ==> ioFaulted && wire == old(wire)
      ensures old(wire) <= wire
      ensures ret == 0 ==> wire == old(wire) + p.Bytes() && !Refuses() && !old(ioFaulted)
      ensures ret != 0 ==> ioFaulted || (Refuses() && wire == old(wire))
    {
      ret := BulkWrite(p.Header());
      ghost var mid, s := wire, Abs();
      if ret != 0 { return; }
      ret := BulkWrite(p.payload);
      Latch.TrafficJoins(old(Abs()), s, Abs());
      assert old(wire) <= mid <= wire;
      if ret == 0 {
        assert old(wire) + p.Header() + p.payload == old(wire) + p.Bytes();
      }
    }

    // ---- The last request -------------------------------------------------------------------

    /** The policy as read now: `p` supplies what is not state of this object, and the head's own latch. */
    function Now(p: Policy): Policy
      reads this
    {
      p.(manualOnly := manualOnly, queryOnly := queryOnly, faulted := ioFaulted || p.faulted,
         drained := unplugged && !hasQueue)
    }

    /** What is read is what the latch machine asks for. */
    lemma {:induction false} NowDecides(p: Policy)
      ensures NoSkip(Now(p)) <==> Latch.MayTurnOff(Abs(), Others(p))
    {
    }

    /**
     * `t6_final_off_disconnect`: the policy is read again under `io_lock`, before which others may set the latch. These
     * are the steps `FinalPolicy`, `Trip` or none, and `FinalAttempt`.
     */
    method FinalOffDisconnect(first: Policy, second: Policy) returns (ghost tripped: bool)
      requires stage == Latch.Drained
      modifies this`ioFaulted, this`ioLastError, this`sent, this`stage
      ensures Abs() == Latch.FinalSteps(old(Abs()), Others(first), tripped, Others(second))
      ensures sent == old(sent) || sent == old(sent) + [Latch.FinalOff]
      ensures sent != old(sent) <==> old(NoSkip(Now(first))) && NoSkip(Now(second))
      ensures sent != old(sent) ==>
        && first.enabled && second.enabled && !manualOnly && !queryOnly && !ioFaulted && unplugged && !hasQueue
        && second.outputMask == 1 && second.primaryRaw && second.profileMatches && second.pathMatches
          && second.wasActive
        && second.sinkValid && second.edidValid && !second.faulted && second.usbConfigured && second.unbinding
    {
      tripped := false;
      var passes := FinalPolicy(first);
      if passes {
        tripped := FinalOffLocked(second);
      }
    }

    /** The rest, under `io_lock`. */
    method FinalOffLocked(second: Policy) returns (ghost tripped: bool)
      requires stage == Latch.Checked
      modifies this`ioFaulted, this`ioLastError, this`sent, this`stage
      ensures Abs() == Latch.LockedSteps(old(Abs()), tripped, Others(second))
      ensures sent == if NoSkip(Now(second)) then old(sent) + [Latch.FinalOff] else old(sent)
    {
      OthersMayLatch();
      tripped := ioFaulted;
      FinalAttempt(second);
    }

    /** Before the lock is taken. */
    method FinalPolicy(first: Policy) returns (passes: bool)
      requires stage == Latch.Drained
      modifies this`stage
      ensures passes == old(NoSkip(Now(first))) == (stage == Latch.Checked) && (!passes ==> stage == Latch.OffDone)
      ensures Abs() == Latch.Do(old(Abs()), Latch.FinalPolicy(Others(first)))
    {
      NowDecides(first);
      passes := first.enabled && NoSkip(Now(first));
      stage := if passes then Latch.Checked else Latch.OffDone;
    }

    /** Under `io_lock`; a failure of the request latches nothing. */
    method FinalAttempt(second: Policy)
      requires stage == Latch.Checked
      modifies this`sent, this`stage
      ensures Abs() == Latch.Do(old(Abs()), Latch.FinalAttempt(Others(second)))
      ensures sent == if NoSkip(Now(second)) then old(sent) + [Latch.FinalOff] else old(sent)
    {
      NowDecides(second);
      stage := Latch.OffDone;
      if !NoSkip(Now(second)) { return; }
      var ret, answer := UsbControl(Latch.FinalOff, 0);
    }
  }
}
