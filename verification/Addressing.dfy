/** Where bulk payloads go in the 58 MB of device memory (trigger6_drv.c:576-640, 1548-1597, 1663-1746, 1996-2051). */
module Addressing {
  import opened Vram
  import opened Wrappers
  import opened UsbDevice
  import Latch = FaultLatch
  import opened Bits
  import RawHead
  import opened Errno

  const MB: nat := 0x10_0000
  const RAM_MB: nat := 58
  const WIDTH: nat := 1920
  const HEIGHT: nat := 1080
  const PADDING: nat := 1024
  const STAGING: nat := 3 * MB

  datatype Span = Span(start: nat, len: nat) {
    function End(): nat { start + len }

    predicate Inside(other: Span) { other.start <= start && End() <= other.End() }

    predicate Apart(other: Span) { End() <= other.start || other.End() <= start }
  }

  /** How the secondary head sends; `Jpeg` is both the kernel and the userspace encoder. */
  datatype Transport = Raw | Jpeg | Nv12

  // ---- The layout --------------------------------------------------------------------

  function FrameSize(): nat { WIDTH * 4 * HEIGHT }

  /** Head 0: flip header and pixels. */
  function HeadZero(): Mode { Mode((RAM_MB - 18 - 12) * MB, WIDTH * 4, HEIGHT) }

  function HeadZeroSpan(): Span { Span(HeadZero().fb, FLIP_SIZE + FrameSize()) }

  function Ring(t: Transport): Span { Span(40 * MB, if t == Raw then 2 * MB else 6 * MB) }

  function SlotCount(t: Transport): nat { if t == Raw then 2 else 3 }

  function Slot(t: Transport, i: nat): Span {
    if t == Raw then Span((42 + 8 * i) * MB, 8 * MB) else Span((46 + 4 * i) * MB, 4 * MB)
  }

  /** Head 0, the command ring and the slots are pairwise disjoint and inside the memory. */
  lemma LayoutDisjoint(t: Transport, i: nat, j: nat)
    requires i < SlotCount(t) && j < SlotCount(t) && i != j
    ensures Slot(t, i).Apart(Slot(t, j)) && Slot(t, i).Apart(Ring(t)) && Slot(t, i).Apart(HeadZeroSpan())
    ensures Ring(t).Apart(HeadZeroSpan())
    ensures Slot(t, i).End() <= RAM_MB * MB && Ring(t).End() <= RAM_MB * MB && HeadZeroSpan().End() <= RAM_MB * MB
  {
  }

  /** Nothing the secondary head writes touches head 0's region: what `RawHead` asks of other traffic. */
  lemma {:induction false} SecondaryIsAway(t: Transport, i: nat, w: Span, payload: seq<byte>)
    requires i < SlotCount(t) && (w.Inside(Slot(t, i)) || w.Inside(Ring(t))) && |payload| == w.len
    ensures RawHead.Away(HeadZero(), Packet(w.start, payload))
  {
    assert HeadZero().Pixels() + HeadZero().Size() <= 40 * MB;
  }

  // ---- Ring buckets ----------------------------------------------------------------------

  /** The bucket of a JPEG command, in whole megabytes, or None when it is too big. */
  function CmdStep(total: nat): (r: nat)
    ensures r > 0 ==> total <= r <= 3 * MB
    ensures r == 0 <==> total > 3 * MB
  {
    if total <= MB then MB else if total <= 2 * MB then 2 * MB else if total <= 3 * MB then 3 * MB else 0
  }

  function CmdAddr(ring: Span, cursor: nat, step: nat): nat {
    if cursor + step > ring.End() then ring.start else cursor
  }

  /** A bucket taken anywhere in the ring stays in the ring, and so does the cursor after it. */
  lemma {:induction false} BucketInRing(ring: Span, cursor: nat, step: nat)
    requires ring.start <= cursor <= ring.End() && step <= ring.len
    ensures var a := CmdAddr(ring, cursor, step);
      Span(a, step).Inside(ring) && ring.start <= a + step <= ring.End()
  {
  }

  /** The buckets of a run of sends, from a cursor. */
  function Buckets(ring: Span, cursor: nat, steps: seq<nat>): seq<Span>
    decreases |steps|
  {
    if steps == [] then []
    else
      var a := CmdAddr(ring, cursor, steps[0]);
      [Span(a, steps[0])] + Buckets(ring, a + steps[0], steps[1..])
  }

  /** Over any run of sends of any sizes, every command stays in the ring. */
  lemma {:induction false} RunInRing(ring: Span, cursor: nat, steps: seq<nat>)
    requires ring.start <= cursor <= ring.End() && forall i | 0 <= i < |steps| :: steps[i] <= ring.len
    ensures forall i | 0 <= i < |Buckets(ring, cursor, steps)| :: Buckets(ring, cursor, steps)[i].Inside(ring)
    decreases |steps|
  {
    if steps != [] {
      BucketInRing(ring, cursor, steps[0]);
      RunInRing(ring, CmdAddr(ring, cursor, steps[0]) + steps[0], steps[1..]);
    }
  }

  /** Two buckets in a row overlap exactly when the second wraps onto the first. */
  lemma {:induction false} ConsecutiveOverlap(ring: Span, cursor: nat, first: nat, second: nat)
    requires ring.start <= cursor <= ring.End() && 0 < first <= ring.len && 0 < second <= ring.len
    ensures var b := Buckets(ring, cursor, [first, second]);
      && |b| == 2
      && (!b[0].Apart(b[1]) <==> b[0].End() + second > ring.End() && b[0].start < ring.start + second)
  {
    var a := CmdAddr(ring, cursor, first);
    assert [first, second][1..] == [second] && [second][1..] == [];
    assert Buckets(ring, a + first, [second]) == [Span(CmdAddr(ring, a + first, second), second)];
  }

  /** It does happen: 1 MB, then two commands of 3 MB. */
  lemma {:induction false} OverlapHappens()
    ensures var ring := Ring(Jpeg);
      var b := Buckets(ring, ring.start + MB, [3 * MB, 3 * MB]);
      |b| == 2 && !b[0].Apart(b[1])
  {
    ConsecutiveOverlap(Ring(Jpeg), Ring(Jpeg).start + MB, 3 * MB, 3 * MB);
  }

  // ---- What is sent -----------------------------------------------------------------------

  function AlignTo(n: nat, a: nat): nat
    requires a > 0
  {
    (n + a - 1) / a * a
  }

  /** The picture the device decodes a JPEG command into: Y, padding, and half as much UV. */
  function Decoded(fb: nat): Span {
    var luma := AlignTo(WIDTH, 32) * AlignTo(HEIGHT, 32);
    Span(fb, luma + PADDING + luma / 2)
  }

  function JpegFlip(fb: nat, len: nat, reset: bool): (h: FlipHeader)
    ensures fb <= RAM_MB * MB && len <= STAGING ==> h.Valid()
  {
    var pitch := AlignTo(WIDTH, 32);
    var uv := fb + pitch * AlignTo(HEIGHT, 32) + PADDING;
    FlipHeader(FLIP_SECONDARY, len + PADDING, NV12, pitch, pitch, fb, uv, JPEG, reset)
  }

  /** The decoded picture stays in its slot. */
  lemma {:induction false} DecodedFits(slot: nat)
    requires slot < SlotCount(Jpeg)
    ensures Decoded(Slot(Jpeg, slot).start).Inside(Slot(Jpeg, slot)) && Slot(Jpeg, slot).start <= RAM_MB * MB
  {
  }

  /** The largest blob that fits the staging buffer. */
  const MAX_BLOB: nat := STAGING - FLIP_SIZE - PADDING

  /** The command that carries a blob, given the cursor, the slot it is decoded into and the frame counter. */
  function Command(cursor: nat, slot: nat, frameSeq: nat, data: seq<byte>): (p: Packet)
    requires slot < SlotCount(Jpeg) && Ring(Jpeg).start <= cursor <= Ring(Jpeg).End() && |data| <= MAX_BLOB
    ensures Span(p.addr, |p.payload|).Inside(Ring(Jpeg)) && Decoded(Slot(Jpeg, slot).start).Inside(Slot(Jpeg, slot))
  {
    var step := CmdStep(FLIP_SIZE + |data| + PADDING);
    var addr := CmdAddr(Ring(Jpeg), cursor, step);
    DecodedFits(slot);
    var flip := JpegFlip(Slot(Jpeg, slot).start, |data|, frameSeq < 10 || addr != cursor);
    Packet(addr, flip.Bytes() + data + Repeat(0, PADDING))
  }

  /** Where the device puts the picture that a command carries, read from the command itself. */
  function Target(b: seq<byte>): Span
    requires |b| >= 48
  {
    var y, u := U32At(b, 20), U32At(b, 24);
    Span(y, (if u < y then 0 else u - y) + U16At(b, 18) * 1088 / 2)
  }

  /**
   * What a blob's command says, read back from its bytes: a JPEG of the stated length, to be shown as NV12 from the
   * slot given, Y at its start and UV after 1088 rows of 1920 and the padding, with a reset when asked; then the blob,
   * padded.
   */
  ghost predicate Says(b: seq<byte>, slot: nat, data: seq<byte>, reset: bool) {
    var fb := Slot(Jpeg, slot).start;
    && ReadsFlip(b, 4, |data| + 1024, 6, 1920, 1920, fb, fb + 1920 * 1088 + 1024, 13, reset)
    && |b| == 48 + |data| + 1024 && b[48..48 + |data|] == data && b[48 + |data|..] == Repeat(0, 1024)
  }

  /** A command reset its stream for the first ten frames, and when it did not fit before the end of the ring. */
  lemma {:induction false} CommandIsRead(cursor: nat, slot: nat, frameSeq: nat, data: seq<byte>)
    requires slot < SlotCount(Jpeg) && Ring(Jpeg).start <= cursor <= Ring(Jpeg).End() && |data| <= MAX_BLOB
    ensures var p, bucket := Command(cursor, slot, frameSeq, data), CmdStep(48 + |data| + 1024);
      && p.addr == (if cursor + bucket > 46 * MB then 40 * MB else cursor)
      && Says(p.payload, slot, data, frameSeq < 10 || cursor + bucket > 46 * MB)
  {
    var p, bucket := Command(cursor, slot, frameSeq, data), CmdStep(48 + |data| + 1024);
    var reset := frameSeq < 10 || p.addr != cursor;
    var h, tail := JpegFlip(Slot(Jpeg, slot).start, |data|, reset), data + Repeat(0, PADDING);
    DecodedFits(slot);
    BlobIsRead(h.Bytes(), data, p.payload);
    FlipIsRead(h, tail);
    assert p.addr != cursor <==> cursor + bucket > 46 * MB;
  }

  lemma {:induction false} CommandIsSaid(cursor: nat, slot: nat, frameSeq: nat, data: seq<byte>, p: Packet)
    requires slot < SlotCount(Jpeg) && Ring(Jpeg).start <= cursor <= Ring(Jpeg).End() && |data| <= MAX_BLOB
    requires p == Command(cursor, slot, frameSeq, data)
    ensures Says(p.payload, slot, data, frameSeq < 10 || p.addr != cursor)
  {
    CommandIsRead(cursor, slot, frameSeq, data);
  }

  lemma {:induction false} BlobIsRead(flip: seq<byte>, data: seq<byte>, b: seq<byte>)
    requires |flip| == 48 && b == flip + data + Repeat(0, PADDING)
    ensures b == flip + (data + Repeat(0, PADDING))
    ensures b[48..48 + |data|] == data && b[48 + |data|..] == Repeat(0, PADDING)
  {
  }

  /** So the picture goes into its slot, and apart from every other slot: never onto the one on show. */
  lemma {:induction false} TargetIsApart(b: seq<byte>, slot: nat, other: nat, data: seq<byte>, reset: bool)
    requires slot < SlotCount(Jpeg) && other < SlotCount(Jpeg) && other != slot && Says(b, slot, data, reset)
    ensures Target(b).Inside(Slot(Jpeg, slot)) && Target(b).Apart(Slot(Jpeg, other))
  {
  }

  /** NV12 and raw pictures likewise name the place where their pixels are. */
  lemma {:induction false} OtherFlipsAreRead(fb: nat, len: nat, reset: bool, rest: seq<byte>)
    requires fb <= RAM_MB * MB && len <= STAGING
    ensures ReadsFlip(Nv12Flip(fb, len, reset).Bytes() + rest, 4, len + 1024, 6, 1920, 1920, fb + 48,
                      fb + 48 + 1920 * 1080, 6, reset)
    ensures ReadsFlip(RawFlip(fb, reset).Bytes() + rest, 4, 1920 * 4 * 1080, 8, 1920 * 4, 0, fb, 0, 8, reset)
  {
    FlipIsRead(Nv12Flip(fb, len, reset), rest);
    FlipIsRead(RawFlip(fb, reset), rest);
  }

  function Nv12Flip(fb: nat, len: nat, reset: bool): (h: FlipHeader)
    ensures fb <= RAM_MB * MB && len <= STAGING ==> h.Valid()
  {
    var pitch, y := AlignTo(WIDTH, 16), fb + FLIP_SIZE;
    FlipHeader(FLIP_SECONDARY, len + PADDING, NV12, pitch, pitch, y, y + pitch * HEIGHT, NV12, reset)
  }

  function RawFlip(fb: nat, reset: bool): FlipHeader {
    FlipHeader(FLIP_SECONDARY, FrameSize(), RGB32, WIDTH * 4, 0, fb, 0, RGB32, reset)
  }

  /** What a send leaves on the wire: everything, or a prefix under the latch, or nothing. */
  ghost predicate Delivered(before: seq<byte>, latched: bool, ret: int, ps: seq<Packet>, after: seq<byte>,
                            faulted: bool) {
    && AllValid(ps) && before <= after && (latched ==> faulted && after == before)
    && (ret == 0 ==> after == before + Wire(ps) && !latched)
    && (ret != 0 ==> faulted || after == before)
  }

  /** For head 0, a send of the secondary head is a step elsewhere. */
  lemma {:induction false} DeliveredIsElsewhere(s: RawHead.Link, ret: int, ps: seq<Packet>, s': RawHead.Link)
    requires RawHead.Shaped(HeadZero(), s) && forall i | 0 <= i < |ps| :: RawHead.Away(HeadZero(), ps[i])
    requires Delivered(s.wire, s.faulted, ret, ps, s'.wire, s'.faulted)
    requires s' == s.(wire := s'.wire, faulted := s'.faulted)
    ensures RawHead.Step(HeadZero(), s, RawHead.Elsewhere(ps), s')
  {
  }

  method SendOne(t6: Device, p: Packet) returns (ret: int)
    requires p.Valid()
    modifies t6`ioFaulted, t6`ioLastError, t6`wire, t6`sent
    ensures Latch.Traffic(old(t6.Abs()), t6.Abs())
    ensures Delivered(old(t6.wire), old(t6.ioFaulted), ret, [p], t6.wire, t6.ioFaulted)
  {
    ret := t6.WritePacket(p);
    WireOne(p);
  }

  method SendTwo(t6: Device, p: Packet, q: Packet) returns (ret: int)
    requires p.Valid() && q.Valid()
    modifies t6`ioFaulted, t6`ioLastError, t6`wire, t6`sent
    ensures Latch.Traffic(old(t6.Abs()), t6.Abs())
    ensures Delivered(old(t6.wire), old(t6.ioFaulted), ret, [p, q], t6.wire, t6.ioFaulted)
  {
    ret := t6.WritePacket(p);
    ghost var mid, t := t6.wire, t6.Abs();
    if ret != 0 { return; }
    ret := t6.WritePacket(q);
    Latch.TrafficJoins(old(t6.Abs()), t, t6.Abs());
    assert old(t6.wire) <= mid <= t6.wire;
    WireTwo(old(t6.wire), p, q);
  }

  lemma {:induction false} WireTwo(w: seq<byte>, p: Packet, q: Packet)
    requires p.Valid() && q.Valid()
    ensures w + Wire([p, q]) == w + p.Bytes() + q.Bytes()
  {
    assert [p, q][1..] == [q];
    WireOne(q);
  }

  /** Header, data and zero padding put together in the staging buffer. */
  method StageBlob(staging: array<byte>, flip: seq<byte>, data: seq<byte>)
    requires |flip| == FLIP_SIZE && FLIP_SIZE + |data| + PADDING <= staging.Length
    modifies staging
    ensures staging[..FLIP_SIZE + |data| + PADDING] == flip + data + Repeat(0, PADDING)
  {
    Copy(staging, FLIP_SIZE, data);
    Copy(staging, FLIP_SIZE + |data|, Repeat(0, PADDING));
    Copy(staging, 0, flip);
  }

  /** The header put before what is staged already. */
  method StageHeader(staging: array<byte>, flip: seq<byte>, total: nat) returns (payload: seq<byte>)
    requires |flip| == FLIP_SIZE <= total <= staging.Length
    modifies staging
    ensures payload == flip + old(staging[FLIP_SIZE..total])
  {
    Copy(staging, 0, flip);
    payload := staging[..total];
  }

  method SendBlob(t6: Device, staging: array<byte>, addr: nat, flip: seq<byte>, data: seq<byte>)
      returns (ret: int, ghost p: Packet)
    requires |flip| == FLIP_SIZE && FLIP_SIZE + |data| + PADDING <= staging.Length
    requires addr + FLIP_SIZE + |data| + PADDING < LIMIT32
    modifies staging, t6`ioFaulted, t6`ioLastError, t6`wire, t6`sent
    ensures Latch.Traffic(old(t6.Abs()), t6.Abs()) && p == Packet(addr, flip + data + Repeat(0, PADDING))
    ensures Delivered(old(t6.wire), old(t6.ioFaulted), ret, [p], t6.wire, t6.ioFaulted)
  {
    StageBlob(staging, flip, data);
    p := Packet(addr, flip + data + Repeat(0, PADDING));
    ret := SendOne(t6, Packet(addr, staging[..FLIP_SIZE + |data| + PADDING]));
  }

  // ---- The secondary head ------------------------------------------------------------------

  class SecondaryHead {
    const t6: Device
    const transport: Transport
    /** The staging buffer of the transport. */
    const staging: array?<byte>
    var fbSlots: seq<nat>
    var fbSlotCount: nat
    var fbSlotIndex: nat
    var fbAddr: nat
    var cmdBaseAddr: nat
    var cmdLimitAddr: nat
    var cmdCursorAddr: nat
    var frameSeq: nat
    /** The cached NV12 payload. */
    var lastJpeg: seq<byte>
    /** The payload of the last NV12 send, and where it went. */
    ghost var lastNv12: Option<Packet>

    /** `t6_init_head_addressing` for output 1. */
    constructor (t6: Device, transport: Transport, staging: array?<byte>)
      requires staging != null ==> staging.Length == if transport == Raw then FLIP_SIZE + FrameSize() else STAGING
      ensures Valid() && this.t6 == t6 && this.transport == transport && this.staging == staging && lastNv12 == None
    {
      var tmp := RAM_MB - 18;
      this.t6, this.transport, this.staging := t6, transport, staging;
      if transport == Raw {
        fbSlots := [(tmp + 2) * MB, (tmp + 10) * MB, 0];
        fbSlotCount := 2;
        fbAddr := (tmp + 2) * MB;
        cmdLimitAddr := (tmp + 2) * MB;
      } else {
        fbSlots := [(RAM_MB - 12) * MB, (RAM_MB - 8) * MB, (RAM_MB - 4) * MB];
        fbSlotCount := 3;
        fbAddr := (RAM_MB - 12) * MB;
        cmdLimitAddr := (RAM_MB - 12) * MB;
      }
      cmdBaseAddr := tmp * MB;
      fbSlotIndex := 1;
      cmdCursorAddr := tmp * MB;
      frameSeq := 0;
      lastJpeg, lastNv12 := [], None;
    }

    ghost predicate Valid()
      reads this
    {
      && (staging != null ==> staging.Length == if transport == Raw then FLIP_SIZE + FrameSize() else STAGING)
      && |fbSlots| == 3 && fbSlotCount == SlotCount(transport) && fbSlotIndex < fbSlotCount
      && (forall i: nat | i < fbSlotCount :: fbSlots[i] == Slot(transport, i).start)
      && cmdBaseAddr == Ring(transport).start && cmdLimitAddr == Ring(transport).End()
      && cmdBaseAddr <= cmdCursorAddr <= cmdLimitAddr
      && |lastJpeg| <= STAGING
      && (lastNv12.Some? ==> lastNv12 == Some(Packet(Slot(transport, fbSlotIndex).start, lastJpeg)))
    }

    /** The slot after the one on show. */
    ghost function NextSlot(): (slot: nat)
      requires Valid()
      reads this
      ensures slot < SlotCount(transport) && slot != fbSlotIndex
    {
      (fbSlotIndex + 1) % fbSlotCount
    }

    /** The next slot and its address. */
    method PickSlot() returns (slot: int, fb: int)
      requires Valid()
      ensures slot == NextSlot() && fb == Slot(transport, slot).start
    {
      slot := if fbSlotCount > 1 then (fbSlotIndex + 1) % fbSlotCount else 0;
      fb := if fbSlots[slot] != 0 then fbSlots[slot] else fbAddr;
    }

    /** `t6_send_jpeg_blob`. The stream is reset for the first ten frames and whenever the ring wraps. */
    method SendJpegBlob(data: seq<byte>) returns (ret: int, ghost p: Packet)
      requires Valid() && transport == Jpeg && |data| < LIMIT32 - FLIP_SIZE - PADDING
      modifies this, staging, t6`ioFaulted, t6`ioLastError, t6`wire, t6`sent
      ensures Valid() && Latch.Traffic(old(t6.Abs()), t6.Abs())
      ensures !(staging != null && 0 < |data| <= MAX_BLOB) ==>
        ret == (if data == [] then -EINVAL else -E2BIG) && t6.wire == old(t6.wire)
      ensures staging != null && 0 < |data| <= MAX_BLOB ==>
        && p == Command(old(cmdCursorAddr), old(NextSlot()), old(frameSeq), data)
        && Says(p.payload, old(NextSlot()), data, old(frameSeq) < 10 || p.addr != old(cmdCursorAddr))
        && Delivered(old(t6.wire), old(t6.ioFaulted), ret, [p], t6.wire, t6.ioFaulted)
      ensures ret == 0 ==> fbSlotIndex == old(NextSlot()) && cmdCursorAddr == p.addr + CmdStep(|p.payload|)
      ensures ret != 0 ==> fbSlotIndex == old(fbSlotIndex) && cmdCursorAddr == old(cmdCursorAddr)
      ensures frameSeq == if ret == 0 then (old(frameSeq) + 1) % 0x1_0000_0000 else old(frameSeq)
    {
      p := Packet(0, []);
      var cmdStep;
      ret, cmdStep := BlobStep(|data|);
      if ret == 0 {
        ret, p := SendSaying(data, cmdStep);
      }
    }

    /** The command sent, and what it says. */
    method SendSaying(data: seq<byte>, cmdStep: nat) returns (ret: int, ghost p: Packet)
      requires Valid() && transport == Jpeg && staging != null && |data| <= MAX_BLOB
      requires cmdStep == CmdStep(FLIP_SIZE + |data| + PADDING)
      modifies this, staging, t6`ioFaulted, t6`ioLastError, t6`wire, t6`sent
      ensures Valid() && Latch.Traffic(old(t6.Abs()), t6.Abs())
      ensures p == Command(old(cmdCursorAddr), old(NextSlot()), old(frameSeq), data)
      ensures Says(p.payload, old(NextSlot()), data, old(frameSeq) < 10 || p.addr != old(cmdCursorAddr))
      ensures Delivered(old(t6.wire), old(t6.ioFaulted), ret, [p], t6.wire, t6.ioFaulted)
      ensures ret == 0 ==> fbSlotIndex == old(NextSlot()) && cmdCursorAddr == p.addr + CmdStep(|p.payload|)
      ensures ret != 0 ==> fbSlotIndex == old(fbSlotIndex) && cmdCursorAddr == old(cmdCursorAddr)
      ensures frameSeq == if ret == 0 then (old(frameSeq) + 1) % 0x1_0000_0000 else old(frameSeq)
    {
      ghost var cursor, slot, count := cmdCursorAddr, NextSlot(), frameSeq;
      ret, p := SendCommand(data, cmdStep);
      CommandIsSaid(cursor, slot, count, data, p);
    }

    /** The checks, and the size of the bucket. */
    method BlobStep(len: nat) returns (ret: int, cmdStep: nat)
      requires Valid() && transport == Jpeg && len < LIMIT32 - FLIP_SIZE - PADDING
      ensures ret == if staging != null && 0 < len <= MAX_BLOB then 0 else if len == 0 then -EINVAL else -E2BIG
      ensures cmdStep == CmdStep(FLIP_SIZE + len + PADDING)
    {
      var totalPayload := (FLIP_SIZE + len + PADDING) % LIMIT32;
      cmdStep := CmdStep(totalPayload);
      if len == 0 { return -EINVAL, cmdStep; }
      if cmdStep == 0 || staging == null || totalPayload > staging.Length { return -E2BIG, cmdStep; }
      ret := 0;
    }

    /** The rest: one command in the ring, which the device decodes into the slot after the one on show. */
    method SendCommand(data: seq<byte>, cmdStep: nat) returns (ret: int, ghost p: Packet)
      requires Valid() && transport == Jpeg && staging != null && |data| <= MAX_BLOB
      requires cmdStep == CmdStep(FLIP_SIZE + |data| + PADDING)
      modifies this, staging, t6`ioFaulted, t6`ioLastError, t6`wire, t6`sent
      ensures Valid() && Latch.Traffic(old(t6.Abs()), t6.Abs())
      ensures p == Command(old(cmdCursorAddr), old(NextSlot()), old(frameSeq), data)
      ensures Delivered(old(t6.wire), old(t6.ioFaulted), ret, [p], t6.wire, t6.ioFaulted)
      ensures ret == 0 ==> fbSlotIndex == old(NextSlot()) && cmdCursorAddr == p.addr + CmdStep(|p.payload|)
      ensures ret != 0 ==> fbSlotIndex == old(fbSlotIndex) && cmdCursorAddr == old(cmdCursorAddr)
      ensures frameSeq == if ret == 0 then (old(frameSeq) + 1) % 0x1_0000_0000 else old(frameSeq)
    {
      var cmdAddr, slot;
      ret, cmdAddr, slot, p := Issue(data, cmdStep);
      if ret == 0 {
        frameSeq := (frameSeq + 1) % LIMIT32;
        cmdCursorAddr := cmdAddr + cmdStep;
        fbSlotIndex := slot;
        lastJpeg, lastNv12 := data, None;
      }
    }

    /** The write itself. */
    method Issue(data: seq<byte>, cmdStep: nat) returns (ret: int, cmdAddr: nat, slot: int, ghost p: Packet)
      requires Valid() && transport == Jpeg && staging != null && |data| <= MAX_BLOB
      requires cmdStep == CmdStep(FLIP_SIZE + |data| + PADDING)
      modifies staging, t6`ioFaulted, t6`ioLastError, t6`wire, t6`sent
      ensures Latch.Traffic(old(t6.Abs()), t6.Abs()) && slot == NextSlot() && cmdAddr == p.addr
      ensures p == Command(cmdCursorAddr, NextSlot(), frameSeq, data)
      ensures Span(cmdAddr, cmdStep).Inside(Ring(Jpeg)) && |p.payload| == FLIP_SIZE + |data| + PADDING
      ensures Delivered(old(t6.wire), old(t6.ioFaulted), ret, [p], t6.wire, t6.ioFaulted)
    {
      var wrapped, fb;
      cmdAddr, wrapped := RingAddr(cmdStep);
      slot, fb := PickSlot();
      var flip := JpegFlip(fb, |data|, frameSeq < 10 || wrapped);
      ret, p := SendBlob(t6, staging, cmdAddr, flip.Bytes(), data);
    }

    /** The place of the next command. */
    method RingAddr(step: nat) returns (addr: nat, wrapped: bool)
      requires Valid() && 0 < step <= Ring(transport).len
      ensures addr == CmdAddr(Ring(transport), cmdCursorAddr, step) && wrapped == (addr != cmdCursorAddr)
      ensures Span(addr, step).Inside(Ring(transport))
    {
      BucketInRing(Ring(transport), cmdCursorAddr, step);
      wrapped := cmdLimitAddr > cmdBaseAddr && cmdCursorAddr + step > cmdLimitAddr;
      addr := if wrapped then cmdBaseAddr else cmdCursorAddr;
    }

    /**
     * `t6_send_prepared_nv12`: header, the picture already staged and padding straight into the slot after the one on
     * show.
     */
    method SendPreparedNv12(nv12Len: nat) returns (ret: int, ghost p: Packet)
      requires Valid() && transport == Nv12 && staging != null && FLIP_SIZE + nv12Len + PADDING <= STAGING
      modifies this, staging, t6`ioFaulted, t6`ioLastError, t6`wire, t6`sent
      ensures Valid() && Latch.Traffic(old(t6.Abs()), t6.Abs())
      ensures p.addr == Slot(transport, old(NextSlot())).start
      ensures p.payload == Nv12Flip(p.addr, nv12Len, old(frameSeq) < 10).Bytes()
                           + old(staging[FLIP_SIZE..FLIP_SIZE + nv12Len + PADDING])
      ensures Span(p.addr, |p.payload|).Inside(Slot(transport, old(NextSlot())))
      ensures Delivered(old(t6.wire), old(t6.ioFaulted), ret, [p], t6.wire, t6.ioFaulted)
      ensures frameSeq == if ret == 0 then (old(frameSeq) + 1) % 0x1_0000_0000 else old(frameSeq)
      ensures ret == 0 ==> fbSlotIndex == old(NextSlot()) && lastNv12 == Some(p)
      ensures ret != 0 ==> fbSlotIndex == old(fbSlotIndex) && lastNv12 == old(lastNv12)
    {
      var totalPayload := FLIP_SIZE + nv12Len + PADDING;
      var slot, fb := PickSlot();
      var flip := Nv12Flip(fb, nv12Len, frameSeq < 10);
      var payload := StageHeader(staging, flip.Bytes(), totalPayload);
      p := Packet(fb, payload);
      ret := SendOne(t6, Packet(fb, payload));
      if ret == 0 {
        frameSeq := (frameSeq + 1) % LIMIT32;
        fbSlotIndex := slot;
        lastJpeg, lastNv12 := payload, Some(p);
      }
    }

    /** The NV12 keepalive: the packet of the last send again, into the slot on show. */
    method KeepaliveNv12() returns (ret: int)
      requires Valid() && transport == Nv12 && lastNv12.Some?
      modifies t6`ioFaulted, t6`ioLastError, t6`wire, t6`sent
      ensures Valid() && Latch.Traffic(old(t6.Abs()), t6.Abs())
      ensures Span(lastNv12.value.addr, |lastNv12.value.payload|).Inside(Slot(transport, fbSlotIndex))
      ensures Delivered(old(t6.wire), old(t6.ioFaulted), ret, [lastNv12.value], t6.wire, t6.ioFaulted)
    {
      var si := fbSlotIndex % fbSlotCount;
      var fb := if fbSlots[si] != 0 then fbSlots[si] else fbAddr;
      ret := SendOne(t6, Packet(fb, lastJpeg));
    }

    /**
     * The secondary branch of `t6_send_frame_raw`: pixels into the slot after the one on show, then the flip header
     * that names it into the ring.
     */
    method SendSecondaryRaw(frame: seq<byte>) returns (ret: int, ghost ps: seq<Packet>)
      requires Valid() && transport == Raw && |frame| == FrameSize()
      modifies this, staging, t6`ioFaulted, t6`ioLastError, t6`wire, t6`sent
      ensures Valid() && Latch.Traffic(old(t6.Abs()), t6.Abs())
      ensures staging == null ==> ret == -ENOMEM && t6.wire == old(t6.wire)
      ensures staging != null ==>
        && ps == [Packet(Slot(transport, old(NextSlot())).start, frame),
                  Packet(CmdAddr(Ring(transport), old(cmdCursorAddr), MB),
                         RawFlip(Slot(transport, old(NextSlot())).start, old(frameSeq) < 10).Bytes())]
        && Span(ps[0].addr, |frame|).Inside(Slot(transport, old(NextSlot())))
        && Span(ps[1].addr, FLIP_SIZE).Inside(Ring(transport))
        && Delivered(old(t6.wire), old(t6.ioFaulted), ret, ps, t6.wire, t6.ioFaulted)
      ensures frameSeq == if ret == 0 then (old(frameSeq) + 1) % 0x1_0000_0000 else old(frameSeq)
      ensures ret == 0 ==> fbSlotIndex == old(NextSlot()) && cmdCursorAddr == ps[1].addr + MB
      ensures ret != 0 ==> fbSlotIndex == old(fbSlotIndex) && cmdCursorAddr == old(cmdCursorAddr)
    {
      ps := [];
      var nextSlot, fbDest := PickSlot();
      var cmdAddr, wrapped := RingAddr(MB);
      if staging == null { return -ENOMEM, ps; }
      var flip := RawFlip(fbDest, frameSeq < 10).Bytes();
      ps := [Packet(fbDest, frame), Packet(cmdAddr, flip)];
      Copy(staging, FLIP_SIZE, frame);
      assert staging[FLIP_SIZE..FLIP_SIZE + FrameSize()] == frame;
      ret := SendTwo(t6, Packet(fbDest, staging[FLIP_SIZE..FLIP_SIZE + FrameSize()]), Packet(cmdAddr, flip));
      if ret != 0 { return; }
      cmdCursorAddr := cmdAddr + MB;
      fbSlotIndex := nextSlot;
      frameSeq := (frameSeq + 1) % LIMIT32;
      lastNv12 := None;
    }
  }

  /** Sending the same packet again changes nothing in memory: the keepalive cannot disturb the picture on show. */
  lemma {:induction false} RepeatChangesNothing(vram: seq<byte>, p: Packet)
    requires p.Valid()
    ensures WriteAll(vram, [p, p]) == WriteAll(vram, [p])
  {
    var once := Poke(vram, p.addr, p.payload);
    assert [p, p][1..] == [p] && [p][1..] == [];
    assert Poke(once, p.addr, p.payload) == once;
  }
}
