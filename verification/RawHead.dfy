/**
 * Sending raw frames to head 0 under the fault latch, and what the monitor then shows (trigger6_drv.c:1251-1314,
 * 1437-1638).
 */
module RawHead {
  import opened Bits
  import opened Wrappers
  import opened Damage
  import opened Vram

  // ---- The link as a state machine -----------------------------------------------------

  /**
   * The latch, the bytes the device has taken, the reference frame (if there is a buffer) and whether it is valid,
   * the frame counter, and the frame a plain "copy every frame" driver would be showing.
   */
  datatype Link = Link(faulted: bool, wire: seq<byte>, last: Option<seq<byte>>, valid: bool, frameSeq: nat,
                       shown: Option<seq<byte>>)

  datatype Event =
    | Submit(frame: seq<byte>)
    | Refresh
    | Disable
    | Elsewhere(packets: seq<Packet>)
    | Fault

  ghost predicate Shaped(m: Mode, s: Link) {
    && m.stride < 0x1_0000 && m.Pixels() + m.Size() < LIMIT32
    && (s.last.Some? ==> m.Frame(s.last.value))
  }

  /** The dirty runs a send uses, or None for a full frame. */
  function Dirty(m: Mode, s: Link, frame: seq<byte>): (r: Option<seq<Range>>)
    requires m.Frame(frame) && (s.last.Some? ==> m.Frame(s.last.value))
  {
    if s.last.None? || !s.valid then None
    else
      var runs := Runs(DirtyRows(frame, s.last.value, m.stride, m.height));
      if |runs| > MAX_DIRTY_RANGES then None else Some(runs)
  }

  lemma {:induction false} DirtyInBounds(m: Mode, s: Link, frame: seq<byte>)
    requires Shaped(m, s) && m.Frame(frame)
    ensures var d := Dirty(m, s, frame);
      d.Some? ==> Exact(d.value, DirtyRows(frame, s.last.value, m.stride, m.height))
  {
    if Dirty(m, s, frame).Some? { RunsExact(DirtyRows(frame, s.last.value, m.stride, m.height)); }
  }

  /** The packets of one send. */
  function Script(m: Mode, s: Link, frame: seq<byte>, ranges: Option<seq<Range>>): (ps: seq<Packet>)
    requires Shaped(m, s) && m.Frame(frame)
    requires ranges.Some? ==> forall i | 0 <= i < |ranges.value| :: ranges.value[i].End() <= m.height
    ensures AllValid(ps)
  {
    var flip := m.Flip(s.frameSeq);
    PacketsValid(m, frame, if ranges.Some? then ranges.value else [], flip);
    if ranges.Some? then PartialPackets(m, frame, ranges.value, flip) else FullPackets(m, frame, flip)
  }

  function NextSeq(n: nat): nat { (n + 1) % LIMIT32 }

  /** A whole script arrived; a transfer failed and latched the link; or nothing was sent at all. */
  ghost predicate Sent(m: Mode, s: Link, s': Link, ps: seq<Packet>)
    requires AllValid(ps)
  {
    !s.faulted && s'.wire == s.wire + Wire(ps) && s'.frameSeq == NextSeq(s.frameSeq)
  }

  ghost predicate Broken(s: Link, s': Link) {
    s'.faulted && s.wire <= s'.wire && s' == s.(faulted := true, wire := s'.wire)
  }

  ghost predicate Step(m: Mode, s: Link, e: Event, s': Link)
    requires Shaped(m, s)
  {
    match e
    case Submit(frame) =>
      m.Frame(frame) &&
      (DirtyInBounds(m, s, frame);
       var d := Dirty(m, s, frame);
       if d == Some([]) then s' == s || s' == s.(shown := Some(frame))
       else
         || s' == s || Broken(s, s')
         || (&& Sent(m, s, s', Script(m, s, frame, d))
             && s'.last == (if s.last.Some? then Some(frame) else None)
             && s'.valid == s.last.Some?
             && s'.shown == Some(frame)))
    case Refresh =>
      && s.last.Some? && s.valid
      && (|| s' == s || Broken(s, s')
          || (&& Sent(m, s, s', Script(m, s, s.last.value, None))
              && s'.last == s.last && s'.valid == s.valid
              && s'.shown == s.last))
    case Disable => s' == s.(valid := false)
    case Elsewhere(ps) =>
      && AllValid(ps) && (forall i | 0 <= i < |ps| :: Away(m, ps[i]))
      && (|| s' == s || Broken(s, s')
          || (!s.faulted && s' == s.(wire := s.wire + Wire(ps), faulted := s'.faulted)))
    case Fault => s' == s.(faulted := true)
  }

  /** A write of the other head: it does not touch head 0's flip header or pixels. */
  ghost predicate Away(m: Mode, p: Packet) {
    p.addr + |p.payload| <= m.fb || m.Pixels() + m.Size() <= p.addr
  }

  // ---- What a send puts on the wire ----------------------------------------------------------

  /** Head 0's flip header, as the device reads it: the pixels follow it, and a reset for a young stream. */
  predicate FlipsHead(m: Mode, b: seq<byte>, reset: bool) {
    ReadsFlip(b, 3, m.height * m.stride, 8, m.stride, 0, m.fb + 48, 0, 8, reset)
  }

  /** A full send is one packet, header and frame together. */
  lemma {:induction false} FullShape(m: Mode, s: Link, frame: seq<byte>)
    requires Shaped(m, s) && m.Frame(frame)
    ensures var ps := Script(m, s, frame, None);
      |ps| == 1 && ps[0].addr == m.fb && FlipsHead(m, ps[0].payload, s.frameSeq < 10) && ps[0].payload[48..] == frame
  {
    FlipOfHead(m, s.frameSeq, frame);
  }

  /** A partial one is the dirty rows of the frame, each where it lies in the pixel region, and the header last. */
  lemma {:induction false} PartialShape(m: Mode, s: Link, frame: seq<byte>, ranges: seq<Range>)
    requires Shaped(m, s) && m.Frame(frame) && forall i | 0 <= i < |ranges| :: ranges[i].End() <= m.height
    ensures var ps, n := Script(m, s, frame, Some(ranges)), |ranges|;
      && |ps| == n + 1 && ps[n].addr == m.fb && |ps[n].payload| == 48 && FlipsHead(m, ps[n].payload, s.frameSeq < 10)
      && forall i | 0 <= i < n ::
           ps[i].addr == m.fb + 48 + ranges[i].start * m.stride && ps[i].payload == m.Rows(frame, ranges[i])
  {
    var flip := m.Flip(s.frameSeq);
    FlipOfHead(m, s.frameSeq, []);
    assert flip + [] == flip;
    RowsThenFlip(m, frame, ranges, flip);
  }

  lemma {:induction false} RowsThenFlip(m: Mode, frame: seq<byte>, ranges: seq<Range>, flip: seq<byte>)
    requires m.Frame(frame) && forall i | 0 <= i < |ranges| :: ranges[i].End() <= m.height
    ensures var ps, n := PartialPackets(m, frame, ranges, flip), |ranges|;
      && |ps| == n + 1 && ps[n] == Packet(m.fb, flip)
      && forall i | 0 <= i < n ::
           ps[i].addr == m.fb + 48 + ranges[i].start * m.stride && ps[i].payload == m.Rows(frame, ranges[i])
  {
    var rows := RowPackets(m, frame, ranges);
    forall i | 0 <= i < |ranges|
      ensures rows[i].addr == m.fb + 48 + ranges[i].start * m.stride && rows[i].payload == m.Rows(frame, ranges[i])
    {
      assert rows[i] == RowPacket(m, frame, ranges[i]);
    }
  }

  lemma {:induction false} FlipOfHead(m: Mode, frameSeq: nat, rest: seq<byte>)
    requires m.Pixels() + m.Size() < LIMIT32 && m.stride < 0x1_0000
    ensures FlipsHead(m, m.Flip(frameSeq) + rest, frameSeq < 10) && (m.Flip(frameSeq) + rest)[48..] == rest
  {
    FlipIsRead(FlipHeader(FLIP_PRIMARY, m.Size(), RGB32, m.stride, 0, m.Pixels(), 0, RGB32, frameSeq < 10), rest);
  }

  // ---- The refinement -----------------------------------------------------------------------

  /** While no fault is latched, a valid reference is what VRAM holds, and so is the last frame submitted. */
  ghost predicate Mirrors(m: Mode, vram0: seq<byte>, s: Link)
    requires m.Fits(vram0)
  {
    && Shaped(m, s)
    && (!s.faulted ==>
         && Whole(s.wire)
         && (s.valid ==> s.last == Some(m.Region(Consume(vram0, s.wire))))
         && (s.shown.Some? ==> s.shown == Some(m.Region(Consume(vram0, s.wire)))))
  }

  lemma {:induction false} WireRegion(m: Mode, vram0: seq<byte>, wire: seq<byte>, ps: seq<Packet>)
    requires m.Fits(vram0) && AllValid(ps) && Whole(wire)
    ensures Whole(wire + Wire(ps))
    ensures Consume(vram0, wire + Wire(ps)) == WriteAll(Consume(vram0, wire), ps)
  {
    ConsumeAll(Consume(vram0, wire), ps);
    ConsumeAppend(vram0, wire, Wire(ps));
  }

  /** Damage-tracked or full, a completed send leaves exactly the submitted frame in VRAM. */
  lemma {:induction false} SendShows(m: Mode, vram0: seq<byte>, s: Link, frame: seq<byte>)
    requires m.Fits(vram0) && Mirrors(m, vram0, s) && m.Frame(frame) && !s.faulted
    ensures var d := Dirty(m, s, frame);
      && (d.Some? ==> Exact(d.value, DirtyRows(frame, s.last.value, m.stride, m.height)))
      && var w := s.wire + Wire(Script(m, s, frame, d));
         Whole(w) && m.Region(Consume(vram0, w)) == frame
  {
    var d, v := Dirty(m, s, frame), Consume(vram0, s.wire);
    DirtyInBounds(m, s, frame);
    WireRegion(m, vram0, s.wire, Script(m, s, frame, d));
    if d.Some? {
      PartialUpdate(m, v, frame, d.value, m.Flip(s.frameSeq));
    } else {
      FullUpdate(m, v, frame, m.Flip(s.frameSeq));
    }
  }

  lemma {:induction false} RefreshShows(m: Mode, vram0: seq<byte>, s: Link, frame: seq<byte>)
    requires m.Fits(vram0) && Mirrors(m, vram0, s) && m.Frame(frame) && !s.faulted
    ensures var w := s.wire + Wire(Script(m, s, frame, None));
      Whole(w) && m.Region(Consume(vram0, w)) == frame
  {
    WireRegion(m, vram0, s.wire, Script(m, s, frame, None));
    FullUpdate(m, Consume(vram0, s.wire), frame, m.Flip(s.frameSeq));
  }

  /** With nothing dirty, the frame is already there. */
  lemma {:induction false} SkipShows(m: Mode, vram0: seq<byte>, s: Link, frame: seq<byte>)
    requires m.Fits(vram0) && Mirrors(m, vram0, s) && m.Frame(frame) && !s.faulted && Dirty(m, s, frame) == Some([])
    ensures m.Region(Consume(vram0, s.wire)) == frame
  {
    DirtyInBounds(m, s, frame);
    PatchComplete(m, s.last.value, frame, []);
  }

  lemma {:induction false} AwayKeeps(m: Mode, vram: seq<byte>, ps: seq<Packet>)
    requires m.Fits(vram) && forall i | 0 <= i < |ps| :: Away(m, ps[i])
    ensures m.Region(WriteAll(vram, ps)) == m.Region(vram)
    decreases |ps|
  {
    if ps != [] {
      AwayPoke(m, vram, ps[0]);
      AwayKeeps(m, Poke(vram, ps[0].addr, ps[0].payload), ps[1..]);
    }
  }

  lemma {:induction false} AwayPoke(m: Mode, vram: seq<byte>, p: Packet)
    requires m.Fits(vram) && Away(m, p)
    ensures m.Region(Poke(vram, p.addr, p.payload)) == m.Region(vram)
  {
    if p.addr + |p.payload| <= |vram| {
      forall k | 0 <= k < m.Size() ensures m.Region(Poke(vram, p.addr, p.payload))[k] == m.Region(vram)[k] {
        SpliceAt(vram, p.addr, p.payload, m.Pixels() + k);
      }
    }
  }

  lemma {:induction false} StepMirrors(m: Mode, vram0: seq<byte>, s: Link, e: Event, s': Link)
    requires m.Fits(vram0) && Mirrors(m, vram0, s) && Step(m, s, e, s')
    ensures Mirrors(m, vram0, s')
  {
    if !s.faulted {
      match e
      case Submit(frame) =>
        SendShows(m, vram0, s, frame);
        if Dirty(m, s, frame) == Some([]) { SkipShows(m, vram0, s, frame); }
      case Refresh => RefreshShows(m, vram0, s, s.last.value);
      case Elsewhere(ps) =>
        WireRegion(m, vram0, s.wire, ps);
        AwayKeeps(m, Consume(vram0, s.wire), ps);
      case Disable =>
      case Fault =>
    }
  }

  /** A run: one link state before and after each event. */
  ghost predicate Run(m: Mode, states: seq<Link>, events: seq<Event>) {
    && |states| == |events| + 1
    && forall i | 0 <= i < |events| :: Shaped(m, states[i]) && Step(m, states[i], events[i], states[i + 1])
  }

  /** Over every run, the incremental driver shows what copying every frame would show. */
  lemma {:induction false} RunMirrors(m: Mode, vram0: seq<byte>, states: seq<Link>, events: seq<Event>, n: nat)
    requires m.Fits(vram0) && Run(m, states, events) && n < |states|
    requires Mirrors(m, vram0, states[0])
    ensures Mirrors(m, vram0, states[n])
  {
    if n > 0 {
      RunMirrors(m, vram0, states, events, n - 1);
      StepMirrors(m, vram0, states[n - 1], events[n - 1], states[n - 1 + 1]);
    }
  }

  /** Whether event `i` of a run sent a frame. */
  predicate Sends(states: seq<Link>, events: seq<Event>, i: nat)
    requires i < |events| && i + 1 < |states|
  {
    (events[i].Submit? || events[i].Refresh?) && states[i + 1].wire != states[i].wire
  }

  /** Whether each of the first `n` events did. */
  function Sendings(states: seq<Link>, events: seq<Event>, n: nat): (b: seq<bool>)
    requires n <= |events| && n < |states|
    ensures |b| == n
  {
    seq(n, i requires 0 <= i < n => Sends(states, events, i))
  }

  function Count(b: seq<bool>): nat { if b == [] then 0 else Count(b[..|b| - 1]) + if b[|b| - 1] then 1 else 0 }

  /** Without a fault, the frame counter counts the frames sent; so the first ten ask for a reset, and no others. */
  lemma {:induction false} CounterCounts(m: Mode, states: seq<Link>, events: seq<Event>, n: nat)
    requires Run(m, states, events) && n < |states| && states[0].frameSeq == 0 && !states[n].faulted
    ensures states[n].frameSeq == Count(Sendings(states, events, n)) % 0x1_0000_0000
  {
    var counter := seq(n + 1, i requires 0 <= i <= n => states[i].frameSeq);
    forall k: nat | k < n ensures Counts(counter[k], counter[k + 1], Sends(states, events, k)) {
      Unfaulted(m, states, events, k + 1, n);
      RunStep(m, states, events, k);
    }
    CountUp(counter, Sendings(states, events, n));
  }

  predicate Counts(before: nat, after: nat, sent: bool) {
    after == if sent then (before + 1) % 0x1_0000_0000 else before
  }

  lemma {:induction false} CountUp(counter: seq<nat>, b: seq<bool>)
    requires |counter| == |b| + 1 && counter[0] == 0
    requires forall k: nat | k < |b| :: Counts(counter[k], counter[k + 1], b[k])
    ensures counter[|b|] == Count(b) % 0x1_0000_0000
    decreases |b|
  {
    if b != [] {
      CountUp(counter[..|b|], b[..|b| - 1]);
      assert Counts(counter[|b| - 1], counter[|b| - 1 + 1], b[|b| - 1]);
    }
  }

  lemma {:induction false} Unfaulted(m: Mode, states: seq<Link>, events: seq<Event>, k: nat, n: nat)
    requires Run(m, states, events) && k <= n < |states| && !states[n].faulted
    ensures !states[k].faulted
    decreases n
  {
    if k < n {
      RunStep(m, states, events, n - 1);
      Unfaulted(m, states, events, k, n - 1);
    }
  }

  lemma {:induction false} RunStep(m: Mode, states: seq<Link>, events: seq<Event>, k: nat)
    requires Run(m, states, events) && k < |events| && !states[k + 1].faulted
    ensures !states[k].faulted
    ensures Counts(states[k].frameSeq, states[k + 1].frameSeq, Sends(states, events, k))
  {
    CounterStep(m, states[k], events[k], states[k + 1]);
  }

  lemma {:induction false} CounterStep(m: Mode, s: Link, e: Event, s': Link)
    requires Shaped(m, s) && Step(m, s, e, s') && !s'.faulted
    ensures !s.faulted
    ensures s'.frameSeq == if (e.Submit? || e.Refresh?) && s'.wire != s.wire then (s.frameSeq + 1) % 0x1_0000_0000
                           else s.frameSeq
  {
    if e.Submit? {
      DirtyInBounds(m, s, e.frame);
      if Dirty(m, s, e.frame) != Some([]) { ScriptNotEmpty(m, s, e.frame, Dirty(m, s, e.frame)); }
    }
    if e.Refresh? { ScriptNotEmpty(m, s, s.last.value, None); }
  }

  lemma {:induction false} ScriptNotEmpty(m: Mode, s: Link, frame: seq<byte>, ranges: Option<seq<Range>>)
    requires Shaped(m, s) && m.Frame(frame)
    requires ranges.Some? ==> forall i | 0 <= i < |ranges.value| :: ranges.value[i].End() <= m.height
    ensures s.wire + Wire(Script(m, s, frame, ranges)) != s.wire
  {
    if ranges.Some? { PartialShape(m, s, frame, ranges.value); } else { FullShape(m, s, frame); }
    var ps := Script(m, s, frame, ranges);
    assert |Wire(ps)| >= |ps[0].Bytes()| >= 32;
    assert |s.wire + Wire(ps)| > |s.wire|;
  }

  /** In particular, after a send or skip that succeeded without a fault, VRAM holds the submitted frame. */
  lemma {:induction false} SubmittedIsShown(m: Mode, vram0: seq<byte>, states: seq<Link>, events: seq<Event>, n: nat)
    requires m.Fits(vram0) && Run(m, states, events) && n < |events| && Mirrors(m, vram0, states[0])
    requires events[n].Submit? && states[n + 1].shown == Some(events[n].frame) && !states[n + 1].faulted
    ensures m.Region(Consume(vram0, states[n + 1].wire)) == events[n].frame
  {
    RunMirrors(m, vram0, states, events, n + 1);
  }
}
