/** `t6_send_frame_raw` itself, for head 0 (trigger6_drv.c:1437-1638). */
module RawDriver {
  import opened Bits
  import opened Wrappers
  import opened Damage
  import opened Vram
  import opened RawHead
  import opened Errno
  import opened UsbDevice
  import Latch = FaultLatch

  lemma {:induction false} WireTake(start: seq<byte>, ps: seq<Packet>, i: nat)
    requires AllValid(ps) && i < |ps|
    ensures start + Wire(ps[..i]) + ps[i].Bytes() == start + Wire(ps[..i + 1])
  {
    var a, p := ps[..i], ps[i];
    assert ps[..i + 1] == a + [p];
    WireAdd(a, [p]);
    WireOne(p);
    Assoc(start, Wire(a), p.Bytes());
  }

  lemma {:induction false} Prefixes(a: seq<byte>, b: seq<byte>, c: seq<byte>)
    requires a + b <= c
    ensures a <= c
  {
    assert a == c[..|a|];
  }

  lemma {:induction false} Staged(buf: seq<byte>, flip: seq<byte>, frame: seq<byte>)
    requires |flip| + |frame| <= |buf|
    ensures Splice(Splice(buf, 0, flip), |flip|, frame)[..|flip| + |frame|] == flip + frame
  {
    assert Splice(buf, 0, flip)[..|flip|] == flip;
  }

  lemma {:induction false} PatchNext(m: Mode, base: seq<byte>, frame: seq<byte>, ranges: seq<Range>, i: nat)
    requires m.Frame(base) && m.Frame(frame) && i < |ranges|
    requires forall k | 0 <= k < |ranges| :: ranges[k].End() <= m.height
    ensures Patch(m, base, frame, ranges[i..]) == Patch(m, PatchOne(m, base, frame, ranges[i]), frame, ranges[i + 1..])
  {
    assert ranges[i..][0] == ranges[i] && ranges[i..][1..] == ranges[i + 1..];
  }

  /** Patching the reference by its own damage gives the frame. */
  lemma {:induction false} DirtyPatch(m: Mode, s: Link, frame: seq<byte>)
    requires Shaped(m, s) && m.Frame(frame)
    ensures var d := Dirty(m, s, frame);
      d.Some? ==>
        && (forall i | 0 <= i < |d.value| :: d.value[i].End() <= m.height)
        && Patch(m, s.last.value, frame, d.value) == frame
  {
    DirtyInBounds(m, s, frame);
    var d := Dirty(m, s, frame);
    if d.Some? { PatchComplete(m, s.last.value, frame, d.value); }
  }

  /** The link after the transfers of one send. */
  ghost predicate Carried(m: Mode, s: Link, frame: seq<byte>, d: Option<seq<Range>>, ret: int, t: Link)
    requires Shaped(m, s) && m.Frame(frame)
    requires d.Some? ==> forall i | 0 <= i < |d.value| :: d.value[i].End() <= m.height
  {
    && s.wire <= t.wire && t == s.(faulted := t.faulted, wire := t.wire) && (s.faulted ==> t.faulted)
    && (ret == 0 ==> t.wire == s.wire + Wire(Script(m, s, frame, d)) && !s.faulted)
    && (ret != 0 ==> t.faulted || t.wire == s.wire)
  }

  /** The link after the bookkeeping of a completed send. */
  function Committed(t: Link, submitted: bool, frame: seq<byte>): Link {
    t.(frameSeq := NextSeq(t.frameSeq), shown := Some(frame),
       last := if submitted && t.last.Some? then Some(frame) else t.last,
       valid := if submitted then t.last.Some? else t.valid)
  }

  /** Transfers and bookkeeping together are one step of the link. */
  lemma {:induction false} SendIsStep(m: Mode, s: Link, submitted: bool, frame: seq<byte>, ret: int, t: Link, u: Link)
    requires Shaped(m, s) && m.Frame(frame)
    requires if submitted then Dirty(m, s, frame) != Some([]) else s.last == Some(frame) && s.valid
    requires (DirtyInBounds(m, s, frame); Carried(m, s, frame, if submitted then Dirty(m, s, frame) else None, ret, t))
    requires u == if ret == 0 then Committed(t, submitted, frame) else t
    ensures Step(m, s, if submitted then Submit(frame) else Refresh, u)
  {
  }

  /** The part of `struct t6_head` that raw sends on head 0 use. */
  class Head {
    const t6: Device
    const mode: Mode
    const lastSent: array?<byte>
    const videoStaging: array?<byte>
    var connected: bool
    var lastSentValid: bool
    var frameSeq: nat
    /** The frame a driver that copies every frame would be showing. */
    ghost var shown: Option<seq<byte>>

    constructor (t6: Device, mode: Mode, lastSent: array?<byte>, videoStaging: array?<byte>)
      requires mode.stride < 0x1_0000 && mode.Pixels() + mode.Size() < LIMIT32
      requires lastSent != null ==> lastSent.Length == mode.Size()
      requires lastSent != null ==> lastSent != videoStaging
      ensures Valid() && this.t6 == t6 && this.mode == mode && !lastSentValid && shown == None
    {
      this.t6, this.mode, this.lastSent, this.videoStaging := t6, mode, lastSent, videoStaging;
      connected, lastSentValid, frameSeq, shown := true, false, 0, None;
    }

    ghost predicate Valid()
      reads this, lastSent
    {
      && Shaped(mode, Link(false, [], Last(), false, 0, None))
      && (if lastSent == null then !lastSentValid else lastSent != videoStaging)
    }

    ghost function Last(): Option<seq<byte>>
      reads lastSent
    {
      if lastSent == null then None else Some(lastSent[..])
    }

    /** The abstract link. */
    ghost function Abs(): Link
      reads this, t6, lastSent
    {
      Link(t6.ioFaulted, t6.wire, Last(), lastSentValid, frameSeq, shown)
    }

    /** The partial branch: dirty rows, then the flip header. */
    method SendPartial(frame: seq<byte>, flip: seq<byte>, dmg: FrameDamage, ghost ps: seq<Packet>) returns (ret: int)
      requires mode.Frame(frame) && dmg.numRanges <= dmg.ranges.Length
      requires forall i | 0 <= i < dmg.numRanges :: dmg.ranges[i].End() <= mode.height
      requires AllValid(ps) && |ps| == dmg.numRanges + 1 && ps[dmg.numRanges] == Packet(mode.fb, flip)
      requires forall i | 0 <= i < dmg.numRanges :: ps[i] == RowPacket(mode, frame, dmg.ranges[i])
      modifies t6`ioFaulted, t6`ioLastError, t6`wire, t6`sent
      ensures Latch.Traffic(old(t6.Abs()), t6.Abs())
      ensures old(t6.wire) <= t6.wire && (old(t6.ioFaulted) ==> t6.ioFaulted)
      ensures ret == 0 ==> t6.wire == old(t6.wire) + Wire(ps) && !old(t6.ioFaulted)
      ensures ret != 0 ==> t6.ioFaulted || t6.wire == old(t6.wire)
    {
      var i := 0;
      ghost var start := t6.wire;
      while i < dmg.numRanges
        invariant i <= dmg.numRanges && Latch.Traffic(old(t6.Abs()), t6.Abs())
        invariant t6.wire == start + Wire(ps[..i])
        invariant i > 0 ==> !t6.Refuses()
      {
        WireTake(start, ps, i);
        ghost var mid := t6.Abs();
        ret := t6.WritePacket(RowPacket(mode, frame, dmg.ranges[i]));
        Latch.TrafficJoins(old(t6.Abs()), mid, t6.Abs());
        if ret != 0 {
          Prefixes(start, Wire(ps[..i]), t6.wire);
          return;
        }
        i := i + 1;
      }
      WireTake(start, ps, i);
      ghost var mid := t6.Abs();
      ret := t6.WritePacket(Packet(mode.fb, flip));
      Latch.TrafficJoins(old(t6.Abs()), mid, t6.Abs());
      Prefixes(start, Wire(ps[..i]), t6.wire);
      assert ps[..i + 1] == ps;
    }

    /** The full branch: header and frame staged together and sent as one payload. */
    method SendFull(frame: seq<byte>, flip: seq<byte>) returns (ret: int)
      requires Valid() && mode.Frame(frame) && |flip| == FLIP_SIZE
      modifies t6`ioFaulted, t6`ioLastError, t6`wire, t6`sent, videoStaging
      ensures Latch.Traffic(old(t6.Abs()), t6.Abs())
      ensures old(t6.wire) <= t6.wire && (old(t6.ioFaulted) ==> t6.ioFaulted)
      ensures var ps := FullPackets(mode, frame, flip);
        ret == 0 ==> AllValid(ps) && t6.wire == old(t6.wire) + Wire(ps) && !old(t6.ioFaulted)
      ensures ret != 0 ==> t6.ioFaulted || t6.wire == old(t6.wire)
    {
      if videoStaging == null || |flip| + |frame| > videoStaging.Length {
        return -ENOMEM;
      }
      Staged(videoStaging[..], flip, frame);
      Copy(videoStaging, 0, flip);
      Copy(videoStaging, |flip|, frame);
      var payload := videoStaging[..|flip| + |frame|];
      assert payload == videoStaging[..][..|flip| + |frame|];
      assert FullPackets(mode, frame, flip)[0].Bytes() + [] == Packet(mode.fb, payload).Bytes();
      ret := t6.WritePacket(Packet(mode.fb, payload));
      assert FullPackets(mode, frame, flip)[1..] == [];
    }

    /** The damage reference follows what was sent: the same ranges, or the whole frame. */
    method UpdateReference(pixels: array<byte>, dmg: FrameDamage?, ghost d: Option<seq<Range>>)
      requires Valid() && pixels.Length == mode.Size()
      requires (dmg != null ==> dmg.numRanges <= dmg.ranges.Length) && d == Reported(dmg)
      requires d.Some? ==> forall i | 0 <= i < |d.value| :: d.value[i].End() <= mode.height
      modifies this`lastSentValid, lastSent
      ensures pixels != lastSent && lastSent != null ==> lastSentValid
      ensures pixels != lastSent && lastSent != null ==>
        lastSent[..] == if d.Some? then Patch(mode, old(lastSent[..]), old(pixels[..]), d.value) else old(pixels[..])
      ensures pixels == lastSent || lastSent == null ==>
        lastSentValid == old(lastSentValid) && (lastSent != null ==> lastSent[..] == old(lastSent[..]))
    {
      if lastSent == null || pixels == lastSent { return; }
      if dmg != null && !dmg.fullFrame {
        assert forall i | 0 <= i < dmg.numRanges :: dmg.ranges[i] == d.value[i];
        CopyRanges(pixels, dmg);
      } else {
        Copy(lastSent, 0, pixels[..]);
      }
      lastSentValid := true;
    }

    method CopyRanges(pixels: array<byte>, dmg: FrameDamage)
      requires lastSent != null && lastSent.Length == pixels.Length == mode.Size() && pixels != lastSent
      requires dmg.numRanges <= dmg.ranges.Length
      requires forall i | 0 <= i < dmg.numRanges :: dmg.ranges[i].End() <= mode.height
      modifies lastSent
      ensures lastSent[..] == Patch(mode, old(lastSent[..]), pixels[..], dmg.ranges[..dmg.numRanges])
    {
      ghost var rs, frame, before := dmg.ranges[..dmg.numRanges], pixels[..], lastSent[..];
      var i := 0;
      assert rs[0..] == rs;
      while i < dmg.numRanges
        invariant i <= dmg.numRanges && pixels[..] == frame
        invariant Patch(mode, lastSent[..], frame, rs[i..]) == Patch(mode, before, frame, rs)
      {
        PatchNext(mode, lastSent[..], frame, rs, i);
        CopyRange(pixels, dmg.ranges[i]);
        i := i + 1;
      }
    }

    method CopyRange(pixels: array<byte>, r: Range)
      requires lastSent != null && lastSent.Length == pixels.Length == mode.Size() && pixels != lastSent
      requires r.End() <= mode.height
      modifies lastSent
      ensures lastSent[..] == PatchOne(mode, old(lastSent[..]), pixels[..], r)
    {
      Scaled(r.start, r.End(), mode.stride);
      Scaled(r.End(), mode.height, mode.stride);
      var rows := pixels[r.start * mode.stride..r.End() * mode.stride];
      assert rows == mode.Rows(pixels[..], r);
      Copy(lastSent, r.start * mode.stride, rows);
    }

    /** What a damage report says to send: some ranges, or (None) everything. */
    ghost function Reported(dmg: FrameDamage?): Option<seq<Range>>
      requires dmg != null ==> dmg.numRanges <= dmg.ranges.Length
      reads dmg, if dmg == null then {} else {dmg.ranges}
    {
      if dmg != null && !dmg.fullFrame then Some(dmg.ranges[..dmg.numRanges]) else None
    }

    /** `t6_compute_frame_damage` against this head's reference. */
    method ComputeDamage(pixels: array<byte>, dmg: FrameDamage)
      requires Valid() && pixels.Length == mode.Size() && dmg.ranges.Length == MAX_DIRTY_RANGES
      modifies dmg`numRanges, dmg`fullFrame, dmg.ranges
      ensures dmg.numRanges <= dmg.ranges.Length && Reported(dmg) == Dirty(mode, Abs(), pixels[..])
    {
      dmg.Compute(pixels, lastSent, lastSentValid, mode.stride, mode.height);
    }

    /**
     * `t6_send_frame_raw` on head 0: a submitted frame with its damage, or (no damage given) the replay of the last
     * one.
     */
    method SendFrameRaw(pixels: array<byte>, pixelLen: nat, dmg: FrameDamage?) returns (ret: int)
      requires Valid() && pixels.Length == mode.Size() && pixels != videoStaging
      requires dmg == null ==> pixels == lastSent && lastSentValid
      requires dmg != null ==> pixels != lastSent && dmg.numRanges <= dmg.ranges.Length
      requires dmg != null ==> Reported(dmg) == Dirty(mode, Abs(), pixels[..])
      modifies this`lastSentValid, this`frameSeq, this`shown, lastSent, videoStaging
      modifies t6`ioFaulted, t6`ioLastError, t6`wire, t6`sent
      ensures Valid() && Latch.Traffic(old(t6.Abs()), t6.Abs())
      ensures Step(mode, old(Abs()), if dmg == null then Refresh else Submit(old(pixels[..])), Abs())
      ensures shown == if ret == 0 then Some(old(pixels[..])) else old(shown)
    {
      if !connected { return -ENODEV; }
      if pixelLen < mode.Size() { return -EINVAL; }
      if dmg != null && !dmg.fullFrame && dmg.numRanges == 0 {
        shown := Some(pixels[..]);
        return 0;
      }
      ret := TransmitAndCommit(pixels, dmg);
    }

    /** Past the checks: the transfers, then the bookkeeping if they all succeeded. */
    method TransmitAndCommit(pixels: array<byte>, dmg: FrameDamage?) returns (ret: int)
      requires Valid() && pixels.Length == mode.Size() && pixels != videoStaging
      requires dmg == null ==> pixels == lastSent && lastSentValid
      requires dmg != null ==> pixels != lastSent && dmg.numRanges <= dmg.ranges.Length
      requires dmg != null ==> Reported(dmg) == Dirty(mode, Abs(), pixels[..]) && Reported(dmg) != Some([])
      modifies this`lastSentValid, this`frameSeq, this`shown, lastSent, videoStaging
      modifies t6`ioFaulted, t6`ioLastError, t6`wire, t6`sent
      ensures Valid() && Latch.Traffic(old(t6.Abs()), t6.Abs())
      ensures Step(mode, old(Abs()), if dmg == null then Refresh else Submit(old(pixels[..])), Abs())
      ensures shown == if ret == 0 then Some(old(pixels[..])) else old(shown)
    {
      ghost var s, d := Abs(), Reported(dmg);
      var frame := pixels[..];
      if dmg != null { DirtyInBounds(mode, s, frame); }
      ret := Transmit(frame, dmg);
      ghost var t := Abs();
      if ret == 0 {
        Commit(pixels, dmg, s);
      }
      SendIsStep(mode, s, dmg != null, frame, ret, t, Abs());
    }

    /** After a completed send. */
    method Commit(pixels: array<byte>, dmg: FrameDamage?, ghost s: Link)
      requires Valid() && pixels.Length == mode.Size() && Shaped(mode, s) && s.last == Last()
        && s.valid == lastSentValid
      requires dmg == null ==> pixels == lastSent
      requires dmg != null ==> pixels != lastSent && dmg.numRanges <= dmg.ranges.Length
      requires dmg != null ==> Reported(dmg) == Dirty(mode, s, pixels[..])
      modifies this`lastSentValid, this`frameSeq, this`shown, lastSent
      ensures Valid() && Abs() == Committed(old(Abs()), dmg != null, old(pixels[..]))
    {
      ghost var frame, d := pixels[..], Reported(dmg);
      if dmg != null { DirtyPatch(mode, s, frame); }
      UpdateReference(pixels, dmg, d);
      frameSeq := (frameSeq + 1) % LIMIT32;
      shown := Some(frame);
    }

    /** The transfers of one send. */
    method Transmit(frame: seq<byte>, dmg: FrameDamage?) returns (ret: int)
      requires Valid() && mode.Frame(frame)
      requires dmg != null ==> dmg.numRanges <= dmg.ranges.Length
      requires Reported(dmg).Some? ==> forall i | 0 <= i < |Reported(dmg).value| ::
        Reported(dmg).value[i].End() <= mode.height
      modifies videoStaging, t6`ioFaulted, t6`ioLastError, t6`wire, t6`sent
      ensures Latch.Traffic(old(t6.Abs()), t6.Abs())
      ensures Valid() && Carried(mode, old(Abs()), frame, old(Reported(dmg)), ret, Abs())
    {
      var flip := mode.Flip(frameSeq);
      if dmg != null && !dmg.fullFrame {
        ghost var rs := dmg.ranges[..dmg.numRanges];
        assert forall i | 0 <= i < dmg.numRanges :: rs[i] == dmg.ranges[i];
        PacketsValid(mode, frame, rs, flip);
        ret := SendPartial(frame, flip, dmg, PartialPackets(mode, frame, rs, flip));
      } else {
        ret := SendFull(frame, flip);
      }
    }

    /** The disable path's effect on the reference. */
    method Invalidate()
      requires Valid()
      modifies this`lastSentValid
      ensures Valid() && Step(mode, old(Abs()), Disable, Abs())
    {
      lastSentValid := false;
    }
  }
}
