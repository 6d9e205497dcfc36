/** The device's memory as the reader of the bulk stream: (32-byte header, payload) pairs (trigger6.h:99-127). */
module Vram {
  import opened Bits
  import opened Damage

  // ---- The bulk protocol -----------------------------------------------------------

  const LIMIT32: nat := 0x1_0000_0000

  function Le32(v: nat): seq<byte>
    requires v < LIMIT32
  {
    [v % 256, v / 256 % 256, v / 0x1_0000 % 256, v / 0x100_0000]
  }

  function Value32(b: seq<byte>): nat
    requires |b| == 4
  {
    Join32(b[0], b[1], b[2], b[3])
  }

  function Join32(a: nat, b: nat, c: nat, d: nat): nat { a + 256 * (b + 256 * (c + 256 * d)) }

  lemma {:induction false} Value32Le32(v: nat)
    requires v < LIMIT32
    ensures Value32(Le32(v)) == v
  {
    assert v / 0x1_0000 == v / 256 / 256 && v / 0x100_0000 == v / 256 / 256 / 256;
  }

  /** Four fields of four bytes. */
  function Quad(a: seq<byte>, b: seq<byte>, c: seq<byte>, d: seq<byte>): (q: seq<byte>)
    requires |a| == |b| == |c| == |d| == 4
    ensures |q| == 16
  {
    a + b + c + d
  }

  lemma {:induction false} QuadSlices(a: seq<byte>, b: seq<byte>, c: seq<byte>, d: seq<byte>)
    requires |a| == |b| == |c| == |d| == 4
    ensures var q := Quad(a, b, c, d); q[0..4] == a && q[4..8] == b && q[8..12] == c && q[12..16] == d
  {
  }

  /** Little-endian fields of a byte string. */
  function U16At(b: seq<byte>, at: nat): nat
    requires at + 2 <= |b|
  {
    var low: nat, high: nat := b[at], b[at + 1];
    low + 256 * high
  }

  function U32At(b: seq<byte>, at: nat): nat
    requires at + 4 <= |b|
  {
    Value32(b[at..at + 4])
  }

  lemma {:induction false} FieldIs(b: seq<byte>, at: nat, v: nat)
    requires at + 4 <= |b| && v < LIMIT32 && b[at..at + 4] == Le32(v)
    ensures U32At(b, at) == v
  {
    Value32Le32(v);
  }

  /** One write command: `payload` goes to `addr`. */
  datatype Packet = Packet(addr: nat, payload: seq<byte>) {
    ghost predicate Valid() { addr + |payload| < LIMIT32 }

    /** `struct t6_bulk_header` with only its lengths and address set, then the payload. */
    function Header(): (h: seq<byte>)
      requires Valid()
      ensures |h| == 32
    {
      Quad(Le32(0), Le32(|payload|), Le32(addr), Le32(|payload|)) + Quad(Le32(0), Le32(0), Le32(0), Le32(0))
    }

    function Bytes(): seq<byte>
      requires Valid()
    {
      Header() + payload
    }
  }

  ghost predicate AllValid(ps: seq<Packet>) { forall i | 0 <= i < |ps| :: ps[i].Valid() }

  function Wire(ps: seq<Packet>): seq<byte>
    requires AllValid(ps)
  {
    if ps == [] then [] else ps[0].Bytes() + Wire(ps[1..])
  }

  function Splice(base: seq<byte>, at: nat, data: seq<byte>): (r: seq<byte>)
    requires at + |data| <= |base|
    ensures |r| == |base|
  {
    base[..at] + data + base[at + |data|..]
  }

  /** `memcpy` into part of a buffer. */
  method Copy(dst: array<byte>, at: nat, src: seq<byte>)
    requires at + |src| <= dst.Length
    modifies dst
    ensures dst[..] == Splice(old(dst[..]), at, src)
  {
    forall i | 0 <= i < |src| {
      dst[at + i] := src[i];
    }
  }

  /** A write; one that does not fit the memory changes nothing. */
  function Poke(vram: seq<byte>, at: nat, data: seq<byte>): (r: seq<byte>)
    ensures |r| == |vram|
  {
    if at + |data| <= |vram| then Splice(vram, at, data) else vram
  }

  /** The memory after all complete packets of a stream. */
  function Consume(vram: seq<byte>, wire: seq<byte>): (r: seq<byte>)
    ensures |r| == |vram|
    decreases |wire|
  {
    if |wire| < 32 then vram
    else
      var len, addr := Value32(wire[4..8]), Value32(wire[8..12]);
      if |wire| < 32 + len then vram
      else Consume(Poke(vram, addr, wire[32..32 + len]), wire[32 + len..])
  }

  /** The stream ends between packets. */
  predicate Whole(wire: seq<byte>)
    decreases |wire|
  {
    wire == [] || (|wire| >= 32 && |wire| >= 32 + Value32(wire[4..8]) && Whole(wire[32 + Value32(wire[4..8])..]))
  }

  lemma {:induction false} ConsumeAppend(vram: seq<byte>, a: seq<byte>, b: seq<byte>)
    requires Whole(a)
    ensures Consume(vram, a + b) == Consume(Consume(vram, a), b)
    ensures Whole(b) ==> Whole(a + b)
    decreases |a|
  {
    if a == [] {
      assert a + b == b;
    } else {
      var len, addr := Value32(a[4..8]), Value32(a[8..12]);
      assert (a + b)[4..8] == a[4..8] && (a + b)[8..12] == a[8..12];
      assert (a + b)[32..32 + len] == a[32..32 + len] && (a + b)[32 + len..] == a[32 + len..] + b;
      ConsumeAppend(Poke(vram, addr, a[32..32 + len]), a[32 + len..], b);
    }
  }

  lemma {:induction false} ConsumePacket(vram: seq<byte>, p: Packet)
    requires p.Valid()
    ensures Consume(vram, p.Bytes()) == Poke(vram, p.addr, p.payload) && Whole(p.Bytes())
  {
    HeaderIsRead(p);
    ConsumeOne(vram, p.Bytes(), p.addr, p.payload);
  }

  lemma {:induction false} ConsumeOne(vram: seq<byte>, w: seq<byte>, addr: nat, payload: seq<byte>)
    requires |w| == 32 + |payload| && U32At(w, 4) == |payload| && U32At(w, 8) == addr && w[32..] == payload
    ensures Consume(vram, w) == Poke(vram, addr, payload) && Whole(w)
  {
    var len := |payload|;
    assert w[32..32 + len] == payload && w[32 + len..] == [];
    assert Consume(Poke(vram, addr, payload), []) == Poke(vram, addr, payload) && Whole([]);
  }

  function WriteAll(vram: seq<byte>, ps: seq<Packet>): (r: seq<byte>)
    ensures |r| == |vram|
    decreases |ps|
  {
    if ps == [] then vram else WriteAll(Poke(vram, ps[0].addr, ps[0].payload), ps[1..])
  }

  /** What the device makes of a stream of packets is what the packets say. */
  lemma {:induction false} ConsumeAll(vram: seq<byte>, ps: seq<Packet>)
    requires AllValid(ps)
    ensures Consume(vram, Wire(ps)) == WriteAll(vram, ps) && Whole(Wire(ps))
    decreases |ps|
  {
    if ps != [] {
      ConsumePacket(vram, ps[0]);
      ConsumeAll(Poke(vram, ps[0].addr, ps[0].payload), ps[1..]);
      ConsumeAppend(vram, ps[0].Bytes(), Wire(ps[1..]));
    }
  }

  lemma {:induction false} WriteAllAdd(vram: seq<byte>, a: seq<Packet>, b: seq<Packet>)
    ensures WriteAll(vram, a + b) == WriteAll(WriteAll(vram, a), b)
    decreases |a|
  {
    if a == [] {
      assert a + b == b;
    } else {
      assert (a + b)[1..] == a[1..] + b;
      WriteAllAdd(Poke(vram, a[0].addr, a[0].payload), a[1..], b);
    }
  }

  lemma {:induction false} WireAdd(a: seq<Packet>, b: seq<Packet>)
    requires AllValid(a) && AllValid(b)
    ensures AllValid(a + b) && Wire(a + b) == Wire(a) + Wire(b)
  {
    if a == [] {
      assert a + b == b;
    } else {
      assert (a + b)[1..] == a[1..] + b && (a + b)[0] == a[0];
      WireAdd(a[1..], b);
      assert a[0].Bytes() + (Wire(a[1..]) + Wire(b)) == a[0].Bytes() + Wire(a[1..]) + Wire(b);
    }
  }

  lemma {:induction false} WireOne(p: Packet)
    requires p.Valid()
    ensures Wire([p]) == p.Bytes()
  {
    assert [p][1..] == [];
  }

  // ---- The pixel region of head 0 ----------------------------------------------------

  const FLIP_SIZE: nat := 48

  const FLIP_PRIMARY: nat := 3
  const FLIP_SECONDARY: nat := 4
  const NV12: nat := 6
  const RGB32: nat := 8
  const JPEG: nat := 13

  /** `struct t6_flip_header` (trigger6.h:112-127). */
  datatype FlipHeader = FlipHeader(command: nat, payloadSize: nat, targetFormat: nat, yPitch: nat, uvPitch: nat,
                                   yFb: nat, uOffset: nat, sourceFormat: nat, reset: bool) {
    predicate Valid() {
      && command < LIMIT32 && payloadSize < LIMIT32 && targetFormat < LIMIT32 && sourceFormat < LIMIT32
      && yPitch < 0x1_0000 && uvPitch < 0x1_0000 && yFb < LIMIT32 && uOffset < LIMIT32
    }

    function Bytes(): (f: seq<byte>)
      requires Valid()
      ensures |f| == FLIP_SIZE
    {
      Quad(Le32(command), Le32(payloadSize), Le32(0), Le32(targetFormat))
      + Quad([yPitch % 256, yPitch / 256, uvPitch % 256, uvPitch / 256], Le32(yFb), Le32(uOffset), Le32(0))
      + (Le32(sourceFormat) + Zeros(11) + [if reset then 0x80 else 0])
    }
  }

  /** What the device finds in the first 48 bytes of a flip command. */
  predicate ReadsFlip(b: seq<byte>, command: nat, size: nat, target: nat, yPitch: nat, uvPitch: nat, yFb: nat, uFb: nat,
                      source: nat, reset: bool) {
    && |b| >= 48 && U32At(b, 0) == command && U32At(b, 4) == size && U32At(b, 8) == 0 && U32At(b, 12) == target
    && U16At(b, 16) == yPitch && U16At(b, 18) == uvPitch && U32At(b, 20) == yFb && U32At(b, 24) == uFb
    && U32At(b, 28) == 0 && U32At(b, 32) == source && b[36..47] == Zeros(11)
    && b[47] == if reset then 0x80 else 0
  }

  /** A flip header, followed by anything, is read back field by field. */
  lemma {:induction false} FlipIsRead(h: FlipHeader, rest: seq<byte>)
    requires h.Valid()
    ensures ReadsFlip(h.Bytes() + rest, h.command, h.payloadSize, h.targetFormat, h.yPitch, h.uvPitch, h.yFb, h.uOffset,
                      h.sourceFormat, h.reset)
  {
    var b := h.Bytes() + rest;
    FlipSlices(h, rest);
    FieldIs(b, 0, h.command);
    FieldIs(b, 4, h.payloadSize);
    FieldIs(b, 8, 0);
    FieldIs(b, 12, h.targetFormat);
    FieldIs(b, 20, h.yFb);
    FieldIs(b, 24, h.uOffset);
    FieldIs(b, 28, 0);
    FieldIs(b, 32, h.sourceFormat);
  }

  lemma {:induction false} FlipSlices(h: FlipHeader, rest: seq<byte>)
    requires h.Valid()
    ensures var b := h.Bytes() + rest;
      && b[0..4] == Le32(h.command) && b[4..8] == Le32(h.payloadSize) && b[8..12] == Le32(0)
      && b[12..16] == Le32(h.targetFormat) && U16At(b, 16) == h.yPitch && U16At(b, 18) == h.uvPitch
      && b[20..24] == Le32(h.yFb) && b[24..28] == Le32(h.uOffset) && b[28..32] == Le32(0)
      && b[32..36] == Le32(h.sourceFormat) && b[36..47] == Zeros(11) && b[47] == if h.reset then 0x80 else 0
  {
    var p: seq<byte> := [h.yPitch % 256, h.yPitch / 256, h.uvPitch % 256, h.uvPitch / 256];
    var q1 := Quad(Le32(h.command), Le32(h.payloadSize), Le32(0), Le32(h.targetFormat));
    var q2 := Quad(p, Le32(h.yFb), Le32(h.uOffset), Le32(0));
    var q3 := Le32(h.sourceFormat) + Zeros(11) + [if h.reset then 0x80 else 0];
    var b := h.Bytes() + rest;
    assert b == q1 + q2 + q3 + rest;
    Thirds(q1, q2, q3, rest);
    QuadAt(b, 0, Le32(h.command), Le32(h.payloadSize), Le32(0), Le32(h.targetFormat));
    QuadAt(b, 16, p, Le32(h.yFb), Le32(h.uOffset), Le32(0));
    PitchesAt(b, h.yPitch, h.uvPitch);
    TailAt(b, Le32(h.sourceFormat), if h.reset then 0x80 else 0);
  }

  lemma {:induction false} QuadAt(s: seq<byte>, at: nat, a: seq<byte>, b: seq<byte>, c: seq<byte>, d: seq<byte>)
    requires |a| == |b| == |c| == |d| == 4 && at + 16 <= |s| && s[at..at + 16] == Quad(a, b, c, d)
    ensures s[at..at + 4] == a && s[at + 4..at + 8] == b && s[at + 8..at + 12] == c && s[at + 12..at + 16] == d
  {
    QuadSlices(a, b, c, d);
    Within(s, Quad(a, b, c, d), at, 0);
    Within(s, Quad(a, b, c, d), at, 4);
    Within(s, Quad(a, b, c, d), at, 8);
    Within(s, Quad(a, b, c, d), at, 12);
  }

  lemma {:induction false} PitchesAt(b: seq<byte>, y: nat, uv: nat)
    requires |b| >= 20 && y < 0x1_0000 && uv < 0x1_0000 && b[16..20] == [y % 256, y / 256, uv % 256, uv / 256]
    ensures U16At(b, 16) == y && U16At(b, 18) == uv
  {
    assert b[16] == b[16..20][0] && b[17] == b[16..20][1] && b[18] == b[16..20][2] && b[19] == b[16..20][3];
  }

  lemma {:induction false} TailAt(b: seq<byte>, source: seq<byte>, flag: byte)
    requires |b| >= 48 && |source| == 4 && b[32..48] == source + Zeros(11) + [flag]
    ensures b[32..36] == source && b[36..47] == Zeros(11) && b[47] == flag
  {
    var q := source + Zeros(11) + [flag];
    Within(b, q, 32, 0);
    assert q[0..4] == source;
    assert b[36..47] == b[32..48][4..15] && q[4..15] == Zeros(11);
    assert b[47] == b[32..48][15];
  }

  lemma {:induction false} Thirds(a: seq<byte>, b: seq<byte>, c: seq<byte>, rest: seq<byte>)
    requires |a| == |b| == |c| == 16
    ensures var s := a + b + c + rest; s[0..16] == a && s[16..32] == b && s[32..48] == c
  {
  }

  /** A field of a part is a field of the whole. */
  lemma {:induction false} Within(s: seq<byte>, q: seq<byte>, at: nat, k: nat)
    requires |q| == 16 && at + 16 <= |s| && s[at..at + 16] == q && k <= 12
    ensures s[at + k..at + k + 4] == q[k..k + 4]
  {
    assert forall i: nat | i < 16 :: q[i] == s[at + i];
    assert q[k] == s[at + k] && q[k + 1] == s[at + k + 1] && q[k + 2] == s[at + k + 2] && q[k + 3] == s[at + k + 3];
  }

  /** The bulk header of a packet holds both lengths and the address, and nothing else. */
  lemma {:induction false} HeaderIsRead(p: Packet)
    requires p.Valid()
    ensures var b := p.Bytes();
      && U32At(b, 0) == 0 && U32At(b, 4) == |p.payload| && U32At(b, 8) == p.addr && U32At(b, 12) == |p.payload|
      && b[16..32] == Zeros(16) && b[32..] == p.payload
  {
    HeaderSlices(p);
    FourFields(p.Bytes(), 0, |p.payload|, p.addr, |p.payload|);
  }

  lemma {:induction false} FourFields(b: seq<byte>, v: nat, w: nat, x: nat, y: nat)
    requires |b| >= 16 && v < LIMIT32 && w < LIMIT32 && x < LIMIT32 && y < LIMIT32
    requires b[0..4] == Le32(v) && b[4..8] == Le32(w) && b[8..12] == Le32(x) && b[12..16] == Le32(y)
    ensures U32At(b, 0) == v && U32At(b, 4) == w && U32At(b, 8) == x && U32At(b, 12) == y
  {
    FieldIs(b, 0, v);
    FieldIs(b, 4, w);
    FieldIs(b, 8, x);
    FieldIs(b, 12, y);
  }

  lemma {:induction false} HeaderSlices(p: Packet)
    requires p.Valid()
    ensures var b := p.Bytes();
      && b[0..4] == Le32(0) && b[4..8] == Le32(|p.payload|) && b[8..12] == Le32(p.addr)
        && b[12..16] == Le32(|p.payload|)
      && b[16..32] == Zeros(16) && b[32..] == p.payload
  {
    var q, z := Quad(Le32(0), Le32(|p.payload|), Le32(p.addr), Le32(|p.payload|)), Quad(Le32(0), Le32(0), Le32(0),
      Le32(0));
    var b := p.Bytes();
    assert b == q + z + p.payload;
    assert b[0..16] == q && b[16..32] == z;
    QuadAt(b, 0, Le32(0), Le32(|p.payload|), Le32(p.addr), Le32(|p.payload|));
    assert Le32(0) == [0, 0, 0, 0];
    assert z == Zeros(16);
  }

  function Zeros(n: nat): (z: seq<byte>)
    ensures |z| == n
  {
    seq(n, _ => 0)
  }

  /** Where head 0's flip header and pixels live, and the size of its picture. */
  datatype Mode = Mode(fb: nat, stride: nat, height: nat) {
    function Size(): nat { height * stride }

    function Pixels(): nat { fb + FLIP_SIZE }

    ghost predicate Fits(vram: seq<byte>) { Pixels() + Size() <= |vram| < LIMIT32 }

    ghost predicate Frame(frame: seq<byte>) { |frame| == Size() }

    function Region(vram: seq<byte>): (r: seq<byte>)
      requires Pixels() + Size() <= |vram|
      ensures |r| == Size()
    {
      vram[Pixels()..Pixels() + Size()]
    }

    /** Rows `r` of a frame. */
    function Rows(frame: seq<byte>, r: Range): seq<byte>
      requires |frame| == Size() && r.End() <= height
    {
      Scaled(r.start, r.End(), stride);
      Scaled(r.End(), height, stride);
      frame[r.start * stride..r.End() * stride]
    }

    /** The flip header of trigger6_drv.c:1468-1478. */
    function Flip(frameSeq: nat): (f: seq<byte>)
      requires Pixels() + Size() < LIMIT32 && stride < 0x1_0000
      ensures |f| == FLIP_SIZE
    {
      FlipHeader(FLIP_PRIMARY, Size(), RGB32, stride, 0, Pixels(), 0, RGB32, frameSeq < 10).Bytes()
    }
  }

  function RowPacket(m: Mode, frame: seq<byte>, r: Range): Packet
    requires m.Frame(frame) && r.End() <= m.height
  {
    Packet(m.Pixels() + r.start * m.stride, m.Rows(frame, r))
  }

  function RowPackets(m: Mode, frame: seq<byte>, ranges: seq<Range>): (ps: seq<Packet>)
    requires m.Frame(frame) && forall i | 0 <= i < |ranges| :: ranges[i].End() <= m.height
    ensures |ps| == |ranges| && forall i | 0 <= i < |ranges| :: ps[i] == RowPacket(m, frame, ranges[i])
    decreases |ranges|
  {
    if ranges == [] then [] else [RowPacket(m, frame, ranges[0])] + RowPackets(m, frame, ranges[1..])
  }

  /** Partial update: the dirty rows, then the flip header. Full update: both in one payload. */
  function PartialPackets(m: Mode, frame: seq<byte>, ranges: seq<Range>, flip: seq<byte>): seq<Packet>
    requires m.Frame(frame) && forall i | 0 <= i < |ranges| :: ranges[i].End() <= m.height
  {
    RowPackets(m, frame, ranges) + [Packet(m.fb, flip)]
  }

  function FullPackets(m: Mode, frame: seq<byte>, flip: seq<byte>): seq<Packet> {
    [Packet(m.fb, flip + frame)]
  }

  lemma {:induction false} RowPacketValid(m: Mode, frame: seq<byte>, r: Range)
    requires m.Frame(frame) && m.Pixels() + m.Size() < LIMIT32 && r.End() <= m.height
    ensures RowPacket(m, frame, r).Valid()
  {
    Scaled(r.start, r.End(), m.stride);
    Scaled(r.End(), m.height, m.stride);
  }

  lemma {:induction false} RowPacketsValid(m: Mode, frame: seq<byte>, ranges: seq<Range>)
    requires m.Frame(frame) && m.Pixels() + m.Size() < LIMIT32
    requires forall i | 0 <= i < |ranges| :: ranges[i].End() <= m.height
    ensures AllValid(RowPackets(m, frame, ranges))
    decreases |ranges|
  {
    if ranges != [] {
      RowPacketValid(m, frame, ranges[0]);
      RowPacketsValid(m, frame, ranges[1..]);
    }
  }

  lemma {:induction false} PacketsValid(m: Mode, frame: seq<byte>, ranges: seq<Range>, flip: seq<byte>)
    requires m.Frame(frame) && |flip| == FLIP_SIZE && m.Pixels() + m.Size() < LIMIT32
    requires forall i | 0 <= i < |ranges| :: ranges[i].End() <= m.height
    ensures AllValid(PartialPackets(m, frame, ranges, flip)) && AllValid(FullPackets(m, frame, flip))
  {
    RowPacketsValid(m, frame, ranges);
  }

  /** Rows copied one range at a time: what both VRAM and `last_sent_frame` go through. */
  function Patch(m: Mode, base: seq<byte>, frame: seq<byte>, ranges: seq<Range>): (r: seq<byte>)
    requires m.Frame(base) && m.Frame(frame) && forall i | 0 <= i < |ranges| :: ranges[i].End() <= m.height
    ensures m.Frame(r)
    decreases |ranges|
  {
    if ranges == [] then base
    else Patch(m, PatchOne(m, base, frame, ranges[0]), frame, ranges[1..])
  }

  function PatchOne(m: Mode, base: seq<byte>, frame: seq<byte>, r: Range): (s: seq<byte>)
    requires m.Frame(base) && m.Frame(frame) && r.End() <= m.height
    ensures m.Frame(s)
  {
    Scaled(r.start, r.End(), m.stride);
    Scaled(r.End(), m.height, m.stride);
    Splice(base, r.start * m.stride, m.Rows(frame, r))
  }

  lemma {:induction false} RegionPoke(m: Mode, vram: seq<byte>, at: nat, data: seq<byte>)
    requires m.Fits(vram) && at + |data| <= m.Size()
    ensures m.Region(Poke(vram, m.Pixels() + at, data)) == Splice(m.Region(vram), at, data)
  {
    var p, r := m.Pixels(), m.Region(vram);
    forall k | 0 <= k < m.Size() ensures m.Region(Poke(vram, p + at, data))[k] == Splice(r, at, data)[k] {
      SpliceAt(vram, p + at, data, p + k);
      SpliceAt(r, at, data, k);
    }
  }

  lemma {:induction false} RegionRow(m: Mode, vram: seq<byte>, frame: seq<byte>, r: Range)
    requires m.Fits(vram) && m.Frame(frame) && r.End() <= m.height
    ensures m.Region(Poke(vram, m.Pixels() + r.start * m.stride, m.Rows(frame, r)))
            == PatchOne(m, m.Region(vram), frame, r)
  {
    Scaled(r.start, r.End(), m.stride);
    Scaled(r.End(), m.height, m.stride);
    RegionPoke(m, vram, r.start * m.stride, m.Rows(frame, r));
  }

  lemma {:induction false} WriteFirst(vram: seq<byte>, p: Packet, ps: seq<Packet>)
    ensures WriteAll(vram, [p] + ps) == WriteAll(Poke(vram, p.addr, p.payload), ps)
  {
    assert ([p] + ps)[1..] == ps;
  }

  /** Writing the rows of some ranges patches the region. */
  lemma {:induction false} RegionRows(m: Mode, vram: seq<byte>, frame: seq<byte>, ranges: seq<Range>)
    requires m.Fits(vram) && m.Frame(frame) && forall i | 0 <= i < |ranges| :: ranges[i].End() <= m.height
    ensures m.Region(WriteAll(vram, RowPackets(m, frame, ranges))) == Patch(m, m.Region(vram), frame, ranges)
    decreases |ranges|
  {
    if ranges != [] {
      var r, next := ranges[0], RowPacket(m, frame, ranges[0]);
      RegionRow(m, vram, frame, r);
      RegionRows(m, Poke(vram, next.addr, next.payload), frame, ranges[1..]);
      WriteFirst(vram, next, RowPackets(m, frame, ranges[1..]));
    }
  }

  /** Each byte of a patched frame comes from the new frame exactly when its row is in a range. */
  lemma {:induction false} PatchAt(m: Mode, base: seq<byte>, frame: seq<byte>, ranges: seq<Range>, row: nat, k: nat)
    requires m.Frame(base) && m.Frame(frame) && forall i | 0 <= i < |ranges| :: ranges[i].End() <= m.height
    requires row * m.stride <= k < (row + 1) * m.stride && k < m.Size()
    ensures Patch(m, base, frame, ranges)[k] ==
            if exists i :: 0 <= i < |ranges| && ranges[i].Has(row) then frame[k] else
              base[k]
    decreases |ranges|
  {
    if ranges != [] {
      var r := ranges[0];
      var next := PatchOne(m, base, frame, r);
      PatchOneAt(m, base, frame, r, row, k);
      PatchAt(m, next, frame, ranges[1..], row, k);
      Covered(ranges, row);
    }
  }

  lemma {:induction false} Covered(ranges: seq<Range>, row: nat)
    requires ranges != []
    ensures (exists i :: 0 <= i < |ranges| && ranges[i].Has(row)) <==>
            ranges[0].Has(row) || exists i :: 0 <= i < |ranges[1..]| && ranges[1..][i].Has(row)
  {
    if i :| 0 <= i < |ranges[1..]| && ranges[1..][i].Has(row) {
      assert ranges[i + 1].Has(row);
    }
    if i :| 0 <= i < |ranges| && ranges[i].Has(row) {
      if i > 0 { assert ranges[1..][i - 1].Has(row); }
    }
  }

  lemma {:induction false} PatchOneAt(m: Mode, base: seq<byte>, frame: seq<byte>, r: Range, row: nat, k: nat)
    requires m.Frame(base) && m.Frame(frame) && r.End() <= m.height
    requires row * m.stride <= k < (row + 1) * m.stride && k < m.Size()
    ensures PatchOne(m, base, frame, r)[k] == if r.Has(row) then frame[k] else base[k]
  {
    var a, b := r.start * m.stride, r.End() * m.stride;
    Scaled(r.start, r.End(), m.stride);
    Scaled(r.End(), m.height, m.stride);
    RowInRange(r, row, m.stride, k);
    SpliceAt(base, a, frame[a..b], k);
  }

  lemma {:induction false} RowInRange(r: Range, row: nat, stride: nat, k: nat)
    requires row * stride <= k < (row + 1) * stride
    ensures r.Has(row) <==> r.start * stride <= k < r.End() * stride
  {
    if row < r.start {
      Scaled(row + 1, r.start, stride);
    } else {
      Scaled(r.start, row, stride);
    }
    if row < r.End() {
      Scaled(row + 1, r.End(), stride);
    } else {
      Scaled(r.End(), row, stride);
    }
  }

  lemma {:induction false} SpliceAt(base: seq<byte>, at: nat, data: seq<byte>, k: nat)
    requires at + |data| <= |base| && k < |base|
    ensures Splice(base, at, data)[k] == if at <= k < at + |data| then data[k - at] else base[k]
  {
  }

  /** Copying exactly the dirty rows over the reference gives the whole new frame. */
  lemma {:induction false} PatchComplete(m: Mode, base: seq<byte>, frame: seq<byte>, ranges: seq<Range>)
    requires m.Frame(base) && m.Frame(frame)
    requires Exact(ranges, DirtyRows(frame, base, m.stride, m.height))
    ensures Patch(m, base, frame, ranges) == frame
  {
    var d := DirtyRows(frame, base, m.stride, m.height);
    forall k | 0 <= k < m.Size() ensures Patch(m, base, frame, ranges)[k] == frame[k] {
      var row := RowOfByte(k, m.height, m.stride);
      PatchAt(m, base, frame, ranges, row, k);
      if !d[row] {
        CleanByte(m, base, frame, row, k);
      } else {
        var i :| 0 <= i < |ranges| && ranges[i].Has(row);
      }
    }
  }

  lemma {:induction false} RowOfByte(k: nat, height: nat, stride: nat) returns (row: nat)
    requires k < height * stride
    ensures row < height && row * stride <= k < (row + 1) * stride
  {
    row := 0;
    while (row + 1) * stride <= k
      invariant row < height && row * stride <= k
      decreases height - row
    {
      var next: nat := row + 1;
      if height <= next { Scaled(height, next, stride); }
      row := next;
    }
  }

  lemma {:induction false} CleanByte(m: Mode, base: seq<byte>, frame: seq<byte>, row: nat, k: nat)
    requires m.Frame(base) && m.Frame(frame) && row < m.height
    requires row * m.stride <= k < (row + 1) * m.stride && k < m.Size()
    requires !DirtyRows(frame, base, m.stride, m.height)[row]
    ensures base[k] == frame[k]
  {
    Scaled(row + 1, m.height, m.stride);
    var a, b := RowOf(frame, m.stride, row), RowOf(base, m.stride, row);
    assert a == b;
    assert frame[k] == a[k - row * m.stride] && base[k] == b[k - row * m.stride];
  }

  /** A full update puts the frame in the region, whatever was there. */
  lemma {:induction false} FullUpdate(m: Mode, vram: seq<byte>, frame: seq<byte>, flip: seq<byte>)
    requires m.Fits(vram) && m.Frame(frame) && |flip| == FLIP_SIZE
    ensures m.Region(WriteAll(vram, FullPackets(m, frame, flip))) == frame
  {
    assert FullPackets(m, frame, flip)[1..] == [];
  }

  /** A partial update does too, when the region held the reference that the damage was computed against. */
  lemma {:induction false} PartialUpdate(m: Mode, vram: seq<byte>, frame: seq<byte>, ranges: seq<Range>,
                                         flip: seq<byte>)
    requires m.Fits(vram) && m.Frame(frame) && |flip| == FLIP_SIZE
    requires Exact(ranges, DirtyRows(frame, m.Region(vram), m.stride, m.height))
    ensures m.Region(WriteAll(vram, PartialPackets(m, frame, ranges, flip))) == frame
  {
    var rows := RowPackets(m, frame, ranges);
    WriteAllAdd(vram, rows, [Packet(m.fb, flip)]);
    RegionRows(m, vram, frame, ranges);
    PatchComplete(m, m.Region(vram), frame, ranges);
    FlipOnly(m, WriteAll(vram, rows), flip);
  }

  /** The flip header lies before the pixels. */
  lemma {:induction false} FlipOnly(m: Mode, vram: seq<byte>, flip: seq<byte>)
    requires m.Fits(vram) && |flip| == FLIP_SIZE
    ensures m.Region(WriteAll(vram, [Packet(m.fb, flip)])) == m.Region(vram)
  {
    assert [Packet(m.fb, flip)][1..] == [];
  }
}
