/** Marker segments (T.81 section B.2, trigger6_codec.c:525-630), and reading them back. */
module Segments {
  import opened Bits
  import opened Wrappers
  import opened Huffman
  import opened BitWriter
  import opened Bytes
  import opened Dct
  import opened StandardTables

  /** A Huffman specification: BITS and HUFFVAL. */
  datatype Spec = Spec(bits: seq<byte>, vals: seq<byte>) {
    predicate Sized() { |bits| == 17 && bits[0] == 0 && |vals| == |Lens(bits)| }

    function Table(): HuffTable
      requires Sized()
    {
      TableOf(bits, vals)
    }
  }

  /** The four specifications an encoder is built with, and what it needs of them. */
  datatype Specs = Specs(dcLuma: Spec, acLuma: Spec, dcChroma: Spec, acChroma: Spec) {
    predicate Sized() {
      && dcLuma.Sized() && acLuma.Sized() && dcChroma.Sized() && acChroma.Sized()
      && |dcLuma.vals| == |dcChroma.vals| == 12 && |acLuma.vals| == |acChroma.vals| == 162
    }

    ghost predicate Valid() {
      && Sized()
      && Histogram(dcLuma.bits, dcLuma.vals) && Histogram(dcChroma.bits, dcChroma.vals)
      && Histogram(acLuma.bits, acLuma.vals) && Histogram(acChroma.bits, acChroma.vals)
      && (forall s: nat | s <= 11 :: s in dcLuma.vals && s in dcChroma.vals)
      && Complete(acLuma.vals) && Complete(acChroma.vals)
    }
  }

  function Standard(): Specs {
    Specs(Spec(DcLumaBits(), DcVals()), Spec(AcLumaBits(), AcLumaVals()),
          Spec(DcChromaBits(), DcVals()), Spec(AcChromaBits(), AcChromaVals()))
  }

  lemma {:induction false} ValidParts(a: seq<byte>, b: seq<byte>, c: seq<byte>, d: seq<byte>,
      dc: seq<byte>, luma: seq<byte>, chroma: seq<byte>)
    requires Histogram(a, dc) && Histogram(b, luma) && Histogram(c, dc) && Histogram(d, chroma)
    requires a[0] == b[0] == c[0] == d[0] == 0 && |dc| == 12 && |luma| == |chroma| == 162
    requires (forall s: nat :: s <= 11 ==> dc[s] == s) && Complete(luma) && Complete(chroma)
    ensures Specs(Spec(a, dc), Spec(b, luma), Spec(c, dc), Spec(d, chroma)).Valid()
  {
    forall s: nat | s <= 11 ensures s in dc { assert dc[s] == s; }
  }

  /** The static tables of the encoder code every symbol it can ask for. */
  lemma {:induction false} StandardValid()
    ensures Standard().Valid()
  {
    Specifications();
    ValidParts(DcLumaBits(), AcLumaBits(), DcChromaBits(), AcChromaBits(), DcVals(), AcLumaVals(), AcChromaVals());
  }

  // ---- Segments ----------------------------------------------------------------

  /** A marker segment with the length field that is written for it. */
  datatype Segment = Segment(marker: byte, length: nat, payload: seq<byte>)

  /** `t6_jpeg_put_be16` takes a C `u16`. */
  function Be16(v: nat): seq<byte> { [v / 256 % 256, v % 256] }

  function SegmentBytes(s: Segment): seq<byte> {
    [0xff, s.marker] + Be16(s.length) + s.payload
  }

  function AllBytes(segs: seq<Segment>): seq<byte> {
    if segs == [] then [] else SegmentBytes(segs[0]) + AllBytes(segs[1..])
  }

  function ZigSteps(qt: seq<Step>): (z: seq<byte>)
    requires |qt| == 64
    ensures |z| == 64
  {
    seq(64, i requires 0 <= i < 64 => qt[Zigzag(i)])
  }

  function App0(): Segment {
    Segment(0xe0, 16, [0x4a, 0x46, 0x49, 0x46, 0x00, 0x01, 0x01, 0x00, 0x00, 0x01, 0x00, 0x01, 0x00, 0x00])
  }

  function Dqt(id: byte, qt: seq<Step>): Segment
    requires |qt| == 64
  {
    Segment(0xdb, 67, [id] + ZigSteps(qt))
  }

  function Sof0(width: nat, height: nat): Segment {
    Segment(0xc0, 17, [8] + Be16(height) + Be16(width) + [3, 1, 0x22, 0x00, 2, 0x11, 0x01, 3, 0x11, 0x01])
  }

  function Dht(id: byte, length: nat, t: Spec): Segment
    requires t.Sized()
  {
    Segment(0xc4, length, [id] + t.bits[1..] + t.vals)
  }

  function Sos(): Segment {
    Segment(0xda, 12, [3, 1, 0x00, 2, 0x11, 3, 0x11, 0x00, 0x3f, 0x00])
  }

  function FrameSegments(width: nat, height: nat, ql: seq<Step>, qc: seq<Step>): seq<Segment>
    requires |ql| == |qc| == 64
  {
    [App0(), Dqt(0x00, ql), Dqt(0x01, qc), Sof0(width, height)]
  }

  function HuffmanSegments(sp: Specs): seq<Segment>
    requires sp.Sized()
  {
    [Dht(0x00, 31, sp.dcLuma), Dht(0x10, 181, sp.acLuma), Dht(0x01, 31, sp.dcChroma), Dht(0x11, 181, sp.acChroma)]
  }

  const SOI: seq<byte> := [0xff, 0xd8]
  const EOI: seq<byte> := [0xff, 0xd9]

  /** Everything before the scan. */
  function HeaderBytes(sp: Specs, width: nat, height: nat, ql: seq<Step>, qc: seq<Step>): seq<byte>
    requires sp.Sized() && |ql| == |qc| == 64
  {
    SOI + AllBytes(FrameSegments(width, height, ql, qc) + HuffmanSegments(sp) + [Sos()])
  }

  lemma {:induction false} HeaderStart(sp: Specs, width: nat, height: nat, ql: seq<Step>, qc: seq<Step>)
    requires sp.Sized() && |ql| == |qc| == 64
    ensures |HeaderBytes(sp, width, height, ql, qc)| >= 2 && HeaderBytes(sp, width, height, ql, qc)[..2] == SOI
  {
    var all := AllBytes(FrameSegments(width, height, ql, qc) + HuffmanSegments(sp) + [Sos()]);
    assert (SOI + all)[..2] == SOI;
  }

  /** SOI and a JFIF segment: version 1.01, no units, square pixels, no thumbnail. */
  function Jfif(): seq<byte> {
    [0xff, 0xd8, 0xff, 0xe0, 0x00, 0x10, 0x4a, 0x46, 0x49, 0x46, 0x00, 0x01, 0x01, 0x00, 0x00, 0x01, 0x00, 0x01, 0x00,
     0x00]
  }

  lemma {:induction false} HeaderIsJfif(sp: Specs, width: nat, height: nat, ql: seq<Step>, qc: seq<Step>)
    requires sp.Sized() && |ql| == |qc| == 64
    ensures Jfif() <= HeaderBytes(sp, width, height, ql, qc)
  {
    var segs := FrameSegments(width, height, ql, qc) + HuffmanSegments(sp) + [Sos()];
    assert segs[0] == App0();
    var first, more := SegmentBytes(App0()), AllBytes(segs[1..]);
    assert Be16(16) == [0x00, 0x10];
    assert SOI + first == Jfif();
    Assoc(SOI, first, more);
  }

  // ---- Reading segments ----------------------------------------------------------

  /** A component of the frame: identifier, sampling factors, quantiser selector. */
  datatype FrameComp = FrameComp(id: byte, h: nat, v: nat, tq: byte)

  datatype Header = Header(width: nat, height: nat, comps: seq<FrameComp>, q: map<byte, seq<byte>>,
                           dht: map<byte, HuffTable>)

  const EMPTY: Header := Header(0, 0, [], map[], map[])

  /** Quantiser entries arrive in zigzag order. */
  function Natural(z: seq<byte>): (n: seq<byte>)
    requires |z| == 64
    ensures |n| == 64
  {
    seq(64, k requires 0 <= k < 64 => z[ZigzagPlace(k)])
  }

  function U16(hi: byte, lo: byte): nat { 256 * hi + lo }

  function ReadComp(p: seq<byte>, at: nat): FrameComp
    requires at + 3 <= |p|
  {
    FrameComp(p[at], p[at + 1] / 16, p[at + 1] % 16, p[at + 2])
  }

  /** The effect of one table or frame segment. */
  function Apply(m: byte, p: seq<byte>, h: Header): Option<Header> {
    if m == 0xe0 then Some(h)
    else if m == 0xdb then
      if |p| != 65 then None else Some(h.(q := h.q[p[0] := Natural(p[1..])]))
    else if m == 0xc0 then
      if |p| != 15 || p[0] != 8 || p[5] != 3 then None
      else Some(h.(height := U16(p[1], p[2]), width := U16(p[3], p[4]),
                   comps := [ReadComp(p, 6), ReadComp(p, 9), ReadComp(p, 12)]))
    else if m == 0xc4 then
      if |p| < 17 then None
      else
        var t := Spec([0] + p[1..17], p[17..]);
        if !t.Sized() then None else Some(h.(dht := h.dht[p[0] := t.Table()]))
    else None
  }

  /** Reads segments up to the start of scan; returns its payload and what follows. */
  function ParseSegments(s: seq<byte>, h: Header): Option<(Header, seq<byte>, seq<byte>)>
    decreases |s|
  {
    if |s| < 4 || s[0] != 0xff then None
    else
      var length := U16(s[2], s[3]);
      if length < 2 || |s| < 2 + length then None
      else
        var p, rest := s[4..2 + length], s[2 + length..];
        if s[1] == 0xda then Some((h, p, rest))
        else match Apply(s[1], p, h)
          case None => None
          case Some(h') => ParseSegments(rest, h')
  }

  ghost predicate Honest(s: Segment) {
    s.length == |s.payload| + 2 < 0x1_0000
  }

  /** A segment whose length field is right is read as itself. */
  lemma {:induction false} ParseSegment(s: Segment, rest: seq<byte>, h: Header)
    requires Honest(s)
    ensures s.marker == 0xda ==> ParseSegments(SegmentBytes(s) + rest, h) == Some((h, s.payload, rest))
    ensures s.marker != 0xda && Apply(s.marker, s.payload, h).Some? ==>
              ParseSegments(SegmentBytes(s) + rest, h) == ParseSegments(rest, Apply(s.marker, s.payload, h).value)
  {
    var b := SegmentBytes(s) + rest;
    assert U16(b[2], b[3]) == s.length;
    assert b[4..2 + s.length] == s.payload && b[2 + s.length..] == rest;
  }

  /** The header after a whole list of table and frame segments. */
  function ApplyAll(segs: seq<Segment>, h: Header): Option<Header> {
    if segs == [] then Some(h)
    else match Apply(segs[0].marker, segs[0].payload, h)
      case None => None
      case Some(h') => ApplyAll(segs[1..], h')
  }

  lemma {:induction false} ApplyAllAdd(a: seq<Segment>, b: seq<Segment>, h: Header, h': Header)
    requires ApplyAll(a, h) == Some(h')
    ensures ApplyAll(a + b, h) == ApplyAll(b, h')
  {
    if a == [] {
      assert a + b == b;
    } else {
      assert (a + b)[1..] == a[1..] + b;
      ApplyAllAdd(a[1..], b, Apply(a[0].marker, a[0].payload, h).value, h');
    }
  }

  ghost predicate Tables(segs: seq<Segment>) {
    forall i :: 0 <= i < |segs| ==> Honest(segs[i]) && segs[i].marker != 0xda
  }

  /** Reading the bytes of honest segments has exactly the effect of the segments. */
  lemma {:induction false} ParseAll(segs: seq<Segment>, last: Segment, rest: seq<byte>, h: Header, h': Header)
    requires Tables(segs) && Honest(last) && last.marker == 0xda
    requires ApplyAll(segs, h) == Some(h')
    ensures ParseSegments(AllBytes(segs + [last]) + rest, h) == Some((h', last.payload, rest))
  {
    if segs == [] {
      assert AllBytes([last][1..]) == [];
      assert segs + [last] == [last] && AllBytes([last]) == SegmentBytes(last);
      ParseSegment(last, rest, h);
    } else {
      assert (segs + [last])[1..] == segs[1..] + [last];
      var s, t := SegmentBytes(segs[0]), AllBytes(segs[1..] + [last]);
      Assoc(s, t, rest);
      ParseSegment(segs[0], t + rest, h);
      ParseAll(segs[1..], last, rest, Apply(segs[0].marker, segs[0].payload, h).value, h');
    }
  }

  // ---- What each segment says -----------------------------------------------------

  lemma {:induction false} ReadDqt(id: byte, qt: seq<Step>, h: Header)
    requires |qt| == 64
    ensures Honest(Dqt(id, qt))
    ensures Apply(0xdb, Dqt(id, qt).payload, h) == Some(h.(q := h.q[id := qt]))
  {
    var p := Dqt(id, qt).payload;
    assert p[1..] == ZigSteps(qt);
    var n := Natural(ZigSteps(qt));
    forall k | 0 <= k < 64 ensures n[k] == qt[k] { ZigzagPermutes(k); }
    assert n == qt;
  }

  function FrameComps(): seq<FrameComp> {
    [FrameComp(1, 2, 2, 0), FrameComp(2, 1, 1, 1), FrameComp(3, 1, 1, 1)]
  }

  lemma {:induction false} Low16(v: nat)
    ensures 256 * (v / 256 % 256) + v % 256 == v % 0x1_0000
  {
    var a, b := v / 0x1_0000, v % 0x1_0000;
    assert v == 256 * (256 * a + b / 256) + b % 256;
    assert v / 256 == 256 * a + b / 256;
  }

  lemma {:induction false} ReadSof0(width: nat, height: nat, h: Header)
    ensures Honest(Sof0(width, height))
    ensures Apply(0xc0, Sof0(width, height).payload, h) ==
            Some(h.(height := height % 0x1_0000, width := width % 0x1_0000, comps := FrameComps()))
  {
    var p := Sof0(width, height).payload;
    Low16(width);
    Low16(height);
    assert U16(p[1], p[2]) == height % 0x1_0000 && U16(p[3], p[4]) == width % 0x1_0000;
    assert ReadComp(p, 6) == FrameComps()[0] && ReadComp(p, 9) == FrameComps()[1] && ReadComp(p, 12) == FrameComps()[2];
  }

  lemma {:induction false} ReadDht(id: byte, length: nat, t: Spec, h: Header)
    requires t.Sized() && length == |t.vals| + 19 < 0x1_0000
    ensures Honest(Dht(id, length, t))
    ensures Apply(0xc4, Dht(id, length, t).payload, h) == Some(h.(dht := h.dht[id := t.Table()]))
  {
    var p := Dht(id, length, t).payload;
    assert p[1..17] == t.bits[1..] && p[17..] == t.vals;
    assert [0] + t.bits[1..] == t.bits;
  }

  lemma {:induction false} ReadFrame(width: nat, height: nat, ql: seq<Step>, qc: seq<Step>)
    requires |ql| == |qc| == 64
    ensures Tables(FrameSegments(width, height, ql, qc))
    ensures ApplyAll(FrameSegments(width, height, ql, qc), EMPTY) ==
            Some(Header(width % 0x1_0000, height % 0x1_0000, FrameComps(), map[0x00 := ql, 0x01 := qc], map[]))
  {
    var segs := FrameSegments(width, height, ql, qc);
    var h1 := EMPTY.(q := map[0x00 := ql]);
    var h2 := h1.(q := map[0x00 := ql, 0x01 := qc]);
    ReadDqt(0x00, ql, EMPTY);
    ReadDqt(0x01, qc, h1);
    ReadSof0(width, height, h2);
    var h3 := h2.(height := height % 0x1_0000, width := width % 0x1_0000, comps := FrameComps());
    ApplyTwo(segs[..2], EMPTY, EMPTY, h1);
    ApplyTwo(segs[2..], h1, h2, h3);
    ApplyAllAdd(segs[..2], segs[2..], EMPTY, h1);
    assert segs[..2] + segs[2..] == segs;
  }

  lemma {:induction false} ApplyTwo(segs: seq<Segment>, h: Header, h1: Header, h2: Header)
    requires |segs| == 2
    requires Apply(segs[0].marker, segs[0].payload, h) == Some(h1)
    requires Apply(segs[1].marker, segs[1].payload, h1) == Some(h2)
    ensures ApplyAll(segs, h) == Some(h2)
  {
    assert segs[1..][1..] == [];
    assert ApplyAll(segs[1..], h1) == Some(h2);
  }

  function HuffTables(sp: Specs): map<byte, HuffTable>
    requires sp.Sized()
  {
    map[0x00 := sp.dcLuma.Table(), 0x10 := sp.acLuma.Table(), 0x01 := sp.dcChroma.Table(), 0x11 := sp.acChroma.Table()]
  }

  lemma {:induction false} ReadTwoDht(i: byte, j: byte, m: nat, n: nat, a: Spec, b: Spec, h: Header)
    requires a.Sized() && m == |a.vals| + 19 < 0x1_0000
    requires b.Sized() && n == |b.vals| + 19 < 0x1_0000
    ensures Tables([Dht(i, m, a), Dht(j, n, b)])
    ensures ApplyAll([Dht(i, m, a), Dht(j, n, b)], h) ==
            Some(h.(dht := h.dht[i := a.Table()][j := b.Table()]))
  {
    var h1 := h.(dht := h.dht[i := a.Table()]);
    ReadDht(i, m, a, h);
    ReadDht(j, n, b, h1);
    ApplyTwo([Dht(i, m, a), Dht(j, n, b)], h, h1, h1.(dht := h1.dht[j := b.Table()]));
  }

  lemma {:induction false} ReadHuffman(sp: Specs, h: Header)
    requires sp.Sized() && h.dht == map[]
    ensures Tables(HuffmanSegments(sp))
    ensures ApplyAll(HuffmanSegments(sp), h) == Some(h.(dht := HuffTables(sp)))
  {
    var luma := [Dht(0x00, 31, sp.dcLuma), Dht(0x10, 181, sp.acLuma)];
    var chroma := [Dht(0x01, 31, sp.dcChroma), Dht(0x11, 181, sp.acChroma)];
    var h' := h.(dht := map[0x00 := sp.dcLuma.Table(), 0x10 := sp.acLuma.Table()]);
    ReadTwoDht(0x00, 0x10, 31, 181, sp.dcLuma, sp.acLuma, h);
    ReadTwoDht(0x01, 0x11, 31, 181, sp.dcChroma, sp.acChroma, h');
    ApplyAllAdd(luma, chroma, h, h');
    assert luma + chroma == HuffmanSegments(sp);
  }

  function ReadHeader(sp: Specs, width: nat, height: nat, ql: seq<Step>, qc: seq<Step>): Header
    requires sp.Sized()
  {
    Header(width % 0x1_0000, height % 0x1_0000, FrameComps(), map[0x00 := ql, 0x01 := qc], HuffTables(sp))
  }

  /**
   * The parser recovers sizes (their low 16 bits, which is all SOF0 holds), quantiser tables in natural order, and the
   * very tables the encoder used.
   */
  lemma {:induction false} HeaderRoundTrip(sp: Specs, width: nat, height: nat, ql: seq<Step>, qc: seq<Step>,
                                           rest: seq<byte>)
    requires sp.Sized() && |ql| == |qc| == 64
    ensures ParseSegments(HeaderBytes(sp, width, height, ql, qc)[2..] + rest, EMPTY) ==
            Some((ReadHeader(sp, width, height, ql, qc), Sos().payload, rest))
  {
    var a, b := FrameSegments(width, height, ql, qc), HuffmanSegments(sp);
    var h1 := Header(width % 0x1_0000, height % 0x1_0000, FrameComps(), map[0x00 := ql, 0x01 := qc], map[]);
    ReadFrame(width, height, ql, qc);
    ReadHuffman(sp, h1);
    ApplyAllAdd(a, b, EMPTY, h1);
    ParseAll(a + b, Sos(), rest, EMPTY, ReadHeader(sp, width, height, ql, qc));
    assert HeaderBytes(sp, width, height, ql, qc)[2..] == AllBytes(a + b + [Sos()]);
  }
}
